/**
 * The data layout of a voxel chunk: a cube of 16 x 16 x 16 cells stored
 * x-fastest, then y, then z. The sample chunk fills it with a test shape,
 * the vertex grid gives every cell its own integer position at the same
 * index, and the uv lookup table maps each of the six faces of a cell
 * index to that index.
 */
module Voxel {
  import opened Geometry

  const Length: nat := 16
  const Size: nat := Length * Length * Length

  /** A cell value of a chunk (uint8_t). */
  newtype Byte = n: int | 0 <= n < 256

  /** An integer position (glm::ivec3). */
  datatype IVec3 = IVec3(x: int, y: int, z: int)

  /** Where sample_data stores cell (x, y, z). */
  function Index(x: int, y: int, z: int): int
  {
    Length * (Length * z + y) + x
  }

  /** Where the vertex grid stores the vertex of cell (x, y, z). */
  function GridIndex(x: int, y: int, z: int): int
  {
    x + Length * (y + Length * z)
  }

  /** The cell stored at index k. */
  function Coords(k: nat): (c: IVec3)
    ensures 0 <= c.x < Length && 0 <= c.y < Length && 0 <= c.z
    ensures k < Size ==> c.z < Length
  {
    IVec3(k % Length, (k / Length) % Length, k / (Length * Length))
  }

  /** The layout is a bijection: every cell has an index in the chunk, and it leads back to the cell. */
  lemma IndexCoords(x: int, y: int, z: int)
    requires 0 <= x < Length && 0 <= y < Length && 0 <= z < Length
    ensures 0 <= Index(x, y, z) < Size
    ensures Coords(Index(x, y, z)) == IVec3(x, y, z)
  {
    var k := Index(x, y, z);
    assert k == 256 * z + 16 * y + x;
    assert k / 16 == 16 * z + y;
    assert k / 256 == z;
  }

  /** ... and every index of the chunk is the index of its cell. */
  lemma CoordsIndex(k: nat)
    requires k < Size
    ensures var c := Coords(k); Index(c.x, c.y, c.z) == k
  {
    var q := k / 16;
    assert k == 16 * q + k % 16;
    assert q == 16 * (q / 16) + q % 16;
    assert q / 16 == k / 256;
  }

  /** The vertex grid and sample_data use the same layout. */
  lemma SameLayout(x: int, y: int, z: int)
    ensures GridIndex(x, y, z) == Index(x, y, z)
  {
  }

  /** A coordinate's distance from the centre of the chunk. */
  function Dist(c: int): real
  {
    Abs(c as real - 7.5)
  }

  /** The three products of a cell's distances from the chunk centre each exceed 3. */
  predicate Carved(x: int, y: int, z: int)
  {
    Dist(x) * Dist(y) > 3.0 && Dist(x) * Dist(z) > 3.0 && Dist(y) * Dist(z) > 3.0
  }

  /**
   * A cell of the sample chunk, the product of four comparisons: 1 below
   * y = 9 where all three distance products exceed 3, 0 everywhere else.
   */
  function Sample(x: int, y: int, z: int): (v: Byte)
    ensures v == 0 || v == 1
    ensures y >= 9 ==> v == 0
    ensures v == 1 <==> Carved(x, y, z) && y < 9
  {
    BitProduct(Dist(x) * Dist(y) > 3.0, Dist(x) * Dist(z) > 3.0, Dist(y) * Dist(z) > 3.0, y < 9);
    Bit(Dist(x) * Dist(y) > 3.0) * Bit(Dist(x) * Dist(z) > 3.0) * Bit(Dist(y) * Dist(z) > 3.0) * Bit(y < 9)
  }

  /** A comparison used as a number. */
  function Bit(b: bool): Byte { if b then 1 else 0 }

  /** A product of comparisons is 1 exactly when all of them hold, and 0 otherwise. */
  lemma BitProduct(a: bool, b: bool, c: bool, d: bool)
    ensures Bit(a) * Bit(b) * Bit(c) * Bit(d) == Bit(a && b && c && d)
  {
    if !a || !b || !c || !d {
      assert Bit(a) == 0 || Bit(b) == 0 || Bit(c) == 0 || Bit(d) == 0;
    }
  }

  /** The sample value of the cell stored at index k. */
  function SampleAt(k: nat): Byte
  {
    var c := Coords(k);
    Sample(c.x, c.y, c.z)
  }

  /**
   * sample_data: visits z, then y, then x, writing each cell's value at its
   * index. The writes go in increasing index order, so every index of the
   * chunk is written, once, with its own cell's value.
   */
  method SampleData() returns (data: array<Byte>)
    ensures data.Length == Size && fresh(data)
    ensures forall k :: 0 <= k < Size ==> data[k] == SampleAt(k)
    ensures forall x, y, z :: 0 <= x < Length && 0 <= y < Length && 0 <= z < Length ==>
      data[Index(x, y, z)] == Sample(x, y, z)
  {
    data := new Byte[Size];
    var z := 0;
    while z < Length
      invariant 0 <= z <= Length
      invariant forall k :: 0 <= k < Index(0, 0, z) ==> data[k] == SampleAt(k)
    {
      var y := 0;
      while y < Length
        invariant 0 <= y <= Length
        invariant forall k :: 0 <= k < Index(0, y, z) ==> data[k] == SampleAt(k)
      {
        var x := 0;
        while x < Length
          invariant 0 <= x <= Length
          invariant forall k :: 0 <= k < Index(x, y, z) ==> data[k] == SampleAt(k)
        {
          IndexCoords(x, y, z);
          data[Length * (Length * z + y) + x] := Sample(x, y, z);
          x := x + 1;
        }
        y := y + 1;
      }
      z := z + 1;
    }
    forall x, y, z | 0 <= x < Length && 0 <= y < Length && 0 <= z < Length
      ensures data[Index(x, y, z)] == Sample(x, y, z)
    {
      IndexCoords(x, y, z);
    }
  }

  /**
   * The vertex-grid loop of init: visits z, then y, then x, storing the
   * cell's own position at its grid index. Every vertex ends up holding
   * the cell its index stands for.
   */
  method VertexGrid() returns (vertices: array<IVec3>)
    ensures vertices.Length == Size && fresh(vertices)
    ensures forall k :: 0 <= k < Size ==> vertices[k] == IVec3(k % 16, (k / 16) % 16, k / 256)
    ensures forall k :: 0 <= k < Size ==>
      0 <= vertices[k].x < Length && 0 <= vertices[k].y < Length && 0 <= vertices[k].z < Length
  {
    vertices := new IVec3[Size];
    var z := 0;
    while z < Length
      invariant 0 <= z <= Length
      invariant forall k :: 0 <= k < GridIndex(0, 0, z) ==> vertices[k] == Coords(k)
    {
      var y := 0;
      while y < Length
        invariant 0 <= y <= Length
        invariant forall k :: 0 <= k < GridIndex(0, y, z) ==> vertices[k] == Coords(k)
      {
        var x := 0;
        while x < Length
          invariant 0 <= x <= Length
          invariant forall k :: 0 <= k < GridIndex(x, y, z) ==> vertices[k] == Coords(k)
        {
          IndexCoords(x, y, z);
          vertices[x + Length * (y + Length * z)] := IVec3(x, y, z);
          x := x + 1;
        }
        y := y + 1;
      }
      z := z + 1;
    }
  }

  /** The number of faces of a cube. */
  const Sides: nat := 6

  /** Where the uv lookup table keeps face `side` of uv index i. */
  function LutSlot(i: int, side: int): int
  {
    Sides * i + side
  }

  /**
   * The uv lookup loop of init: for each of the 256 uv indices and each of
   * the six sides, entry 6 i + side is i. Every one of the 1536 entries is
   * written, with the index of the cell face it belongs to.
   */
  method UvLut() returns (lut: array<int>)
    ensures lut.Length == 16 * 16 * Sides && fresh(lut)
    ensures forall k :: 0 <= k < lut.Length ==> lut[k] == k / Sides
    ensures forall i, side :: 0 <= i < 16 * 16 && 0 <= side < Sides ==> lut[LutSlot(i, side)] == i
  {
    lut := new int[16 * 16 * Sides];
    var i := 0;
    while i < 16 * 16
      invariant 0 <= i <= 16 * 16
      invariant forall k :: 0 <= k < Sides * i ==> lut[k] == k / Sides
    {
      var side := 0;
      while side < Sides
        invariant 0 <= side <= Sides
        invariant forall k :: 0 <= k < Sides * i + side ==> lut[k] == k / Sides
      {
        assert (Sides * i + side) / Sides == i;
        lut[Sides * i + side] := i;
        side := side + 1;
      }
      i := i + 1;
    }
    forall i, side | 0 <= i < 16 * 16 && 0 <= side < Sides
      ensures lut[LutSlot(i, side)] == i
    {
      assert LutSlot(i, side) / Sides == i;
    }
  }
}
