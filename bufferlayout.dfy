/**
 * The vertex layout of an OpenGL buffer: a list of typed elements whose
 * byte offsets and the total stride are computed once, in element order.
 */
module BufferLayout {

  /** The GL types a vertex element can have (the source's GLType). */
  datatype GLType = Bool | Int | Int2 | Int3 | Int4 | Float | Float2 | Float3 | Float4 | Mat3 | Mat4

  const GL_BOOL: int := 0x8B56
  const GL_INT: int := 0x1404
  const GL_FLOAT: int := 0x1406

  /** The integer vector types. */
  predicate IsIntType(t: GLType)
  {
    t == Int || t == Int2 || t == Int3 || t == Int4
  }

  /** The number of scalar components of a type (gltype_length). */
  function Length(t: GLType): (n: nat)
    ensures 1 <= n <= 16
  {
    match t
    case Bool => 1
    case Int => 1
    case Int2 => 2
    case Int3 => 3
    case Int4 => 4
    case Float => 1
    case Float2 => 2
    case Float3 => 3
    case Float4 => 4
    case Mat3 => 3 * 3
    case Mat4 => 4 * 4
  }

  /**
   * The byte size of a type (gltype_byte_size): four bytes per component
   * for every type but Bool, which takes one byte.
   */
  function ByteSize(t: GLType): (n: nat)
    ensures t != Bool ==> n == 4 * Length(t)
    ensures t == Bool ==> n == 1
  {
    match t
    case Bool => 1
    case Int => 4
    case Int2 => 4 * 2
    case Int3 => 4 * 3
    case Int4 => 4 * 4
    case Float => 4
    case Float2 => 4 * 2
    case Float3 => 4 * 3
    case Float4 => 4 * 4
    case Mat3 => 4 * 3 * 3
    case Mat4 => 4 * 4 * 4
  }

  /**
   * The GL scalar type of a type (gl_native_type): GL_BOOL for Bool,
   * GL_INT for the integer vectors and GL_FLOAT for the float vectors and
   * matrices.
   */
  function NativeType(t: GLType): (g: int)
    ensures g == GL_BOOL <==> t == Bool
    ensures g == GL_INT <==> IsIntType(t)
    ensures g == GL_FLOAT <==> t != Bool && !IsIntType(t)
  {
    match t
    case Bool => GL_BOOL
    case Int => GL_INT
    case Int2 => GL_INT
    case Int3 => GL_INT
    case Int4 => GL_INT
    case Float => GL_FLOAT
    case Float2 => GL_FLOAT
    case Float3 => GL_FLOAT
    case Float4 => GL_FLOAT
    case Mat3 => GL_FLOAT
    case Mat4 => GL_FLOAT
  }

  /** One block of a vertex (GLBufferElement). */
  datatype Element = Element(name: string, glType: GLType, size: nat, offset: nat, normalize: bool)
  {
    /** component_count. */
    function ComponentCount(): nat { Length(glType) }
  }

  /** The element constructor: offset 0 until a layout places it, size from the type. */
  function NewElement(name: string, t: GLType, normalize: bool := false): (e: Element)
    ensures e.offset == 0 && e.size == ByteSize(t)
    ensures e.name == name && e.glType == t && e.normalize == normalize
  {
    Element(name, t, ByteSize(t), 0, normalize)
  }

  /** The total byte size of a run of elements. */
  function SizeSum(es: seq<Element>): nat
  {
    if |es| == 0 then 0 else es[0].size + SizeSum(es[1..])
  }

  /** Adding an element at the end adds its size. */
  lemma {:induction false} SizeSumSnoc(es: seq<Element>, e: Element)
    ensures SizeSum(es + [e]) == SizeSum(es) + e.size
  {
    if |es| == 0 {
      assert es + [e] == [e];
      assert [e][1..] == [];
    } else {
      assert (es + [e])[1..] == es[1..] + [e];
      SizeSumSnoc(es[1..], e);
    }
  }

  /** A longer prefix never has a smaller size: offsets are non-decreasing. */
  lemma {:induction false} SizeSumMonotone(es: seq<Element>, i: nat, j: nat)
    requires i <= j <= |es|
    ensures SizeSum(es[..i]) <= SizeSum(es[..j])
  {
    if i < j {
      SizeSumMonotone(es, i, j - 1);
      assert es[..j] == es[..j - 1] + [es[j - 1]];
      SizeSumSnoc(es[..j - 1], es[j - 1]);
    }
  }

  /** The elements with their offsets placed: each starts where the previous ones end. */
  function Placed(es: seq<Element>): (r: seq<Element>)
    ensures |r| == |es|
    ensures forall i :: 0 <= i < |es| ==> r[i] == es[i].(offset := SizeSum(es[..i]))
  {
    seq(|es|, i requires 0 <= i < |es| => es[i].(offset := SizeSum(es[..i])))
  }

  /**
   * In a placed layout with elements, the stride is the last offset plus the
   * last size, and offsets never decrease.
   */
  lemma PlacedShape(es: seq<Element>, i: nat, j: nat)
    requires |es| > 0 && i <= j < |es|
    ensures SizeSum(es) == Placed(es)[|es| - 1].offset + Placed(es)[|es| - 1].size
    ensures Placed(es)[i].offset <= Placed(es)[j].offset
  {
    var n := |es|;
    assert es == es[..n - 1] + [es[n - 1]];
    SizeSumSnoc(es[..n - 1], es[n - 1]);
    SizeSumMonotone(es, i, j);
  }

  /** A vertex layout (GLBufferLayout). */
  class Layout {
    var elements: seq<Element>
    var stride: nat

    /** The default layout: no elements, stride 0. */
    constructor ()
      ensures elements == [] && stride == 0
    {
      elements := [];
      stride := 0;
    }

    /** A layout of the given elements, placed. */
    constructor FromElements(es: seq<Element>)
      ensures elements == Placed(es)
      ensures stride == SizeSum(es)
    {
      elements := es;
      stride := 0;
      new;
      CalculateOffsetsAndStride();
    }

    /**
     * calculate_offsets_and_stride: every element's offset becomes the
     * total size of the elements before it, and the stride the total size
     * of all of them.
     */
    method CalculateOffsetsAndStride()
      modifies this
      ensures elements == Placed(old(elements))
      ensures stride == SizeSum(old(elements))
    {
      ghost var es := elements;
      var offset: nat := 0;
      var i := 0;
      while i < |elements|
        invariant 0 <= i <= |elements| == |es|
        invariant offset == SizeSum(es[..i])
        invariant forall k :: 0 <= k < i ==> elements[k] == es[k].(offset := SizeSum(es[..k]))
        invariant forall k :: i <= k < |es| ==> elements[k] == es[k]
      {
        elements := elements[i := elements[i].(offset := offset)];
        assert es[..i + 1] == es[..i] + [es[i]];
        SizeSumSnoc(es[..i], es[i]);
        offset := offset + elements[i].size;
        i := i + 1;
      }
      assert es[..|es|] == es;
      stride := offset;
    }
  }

  /** DefaultBufferLayout::Plain: one Float3 position. */
  method Plain() returns (l: Layout)
    ensures |l.elements| == 1 && l.elements[0].offset == 0 && l.stride == 12
  {
    l := new Layout.FromElements([NewElement("Position", Float3)]);
  }

  /** DefaultBufferLayout::Normal: position and normal, both Float3. */
  method Normal() returns (l: Layout)
    ensures |l.elements| == 2 && l.elements[0].offset == 0 && l.elements[1].offset == 12
    ensures l.stride == 24
  {
    var es := [NewElement("Position", Float3), NewElement("Normal", Float3)];
    assert es[..1] == [es[0]];
    l := new Layout.FromElements(es);
  }

  /** DefaultBufferLayout::NormalUV: position and normal (Float3) and a Float2 texture coordinate. */
  method NormalUV() returns (l: Layout)
    ensures |l.elements| == 3
    ensures l.elements[0].offset == 0 && l.elements[1].offset == 12 && l.elements[2].offset == 24
    ensures l.stride == 32
  {
    var es := [NewElement("Position", Float3), NewElement("Normal", Float3),
               NewElement("Texture coordinate", Float2)];
    assert es[..1] == [es[0]] && [es[0]][1..] == [];
    assert es[..2] == [es[0]] + [es[1]];
    SizeSumSnoc([es[0]], es[1]);
    assert es == es[..2] + [es[2]];
    SizeSumSnoc(es[..2], es[2]);
    l := new Layout.FromElements(es);
  }
}
