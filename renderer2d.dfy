/**
 * The immediate-mode 2D renderer: draw_quad and draw_circle append one
 * vertex each to a fixed-size CPU buffer, a full buffer is uploaded and
 * drawn before the next vertex goes in, and end uploads whatever is left.
 *
 * The GPU side (set_data followed by glDrawArrays) is modelled by the list
 * of uploaded batches; a ghost log records every draw call, and the
 * invariant of the class says that the uploaded batches followed by the
 * pending part of the buffer spell out that log.
 */
module Renderer2D {
  import opened Geometry

  const MaxQuads: nat := 20000
  const MaxVertices: nat := MaxQuads * 4
  const MaxIndices: nat := MaxQuads * 6

  /** One quad as the geometry shader receives it: centre position, size and colour. */
  datatype QuadVertex = QuadVertex(position: Vec3, size: Vec2, color: Vec4)

  /** One circle: centre position, radius and colour. */
  datatype CircleData = CircleData(position: Vec3, radius: real, color: Vec4)

  /** The batches sent to the GPU, one after the other. */
  function Flatten<T>(batches: seq<seq<T>>): (r: seq<T>)
    ensures |batches| == 0 ==> r == []
  {
    if |batches| == 0 then [] else Flatten(batches[..|batches| - 1]) + batches[|batches| - 1]
  }

  /** Uploading one more batch appends exactly its entries. */
  lemma FlattenSnoc<T>(batches: seq<seq<T>>, b: seq<T>)
    ensures Flatten(batches + [b]) == Flatten(batches) + b
  {
    assert (batches + [b])[..|batches|] == batches;
  }

  /** Every batch is non-empty and fits the buffer. */
  ghost predicate Bounded<T>(batches: seq<seq<T>>)
  {
    forall i :: 0 <= i < |batches| ==> 0 < |batches[i]| <= MaxVertices
  }

  class Renderer2D {
    const quadBuffer: array<QuadVertex>
    const circleBuffer: array<CircleData>
    var quadIndex: nat
    var circleIndex: nat
    /** The contents of every quad upload, in order. */
    var quadBatches: seq<seq<QuadVertex>>
    /** The contents of every circle upload, in order. */
    var circleBatches: seq<seq<CircleData>>
    /** Every draw_quad call since init, in order. */
    ghost var quadsDrawn: seq<QuadVertex>
    /** Every draw_circle call since init, in order. */
    ghost var circlesDrawn: seq<CircleData>

    /** The quad index stays within the buffer, and nothing drawn is lost or reordered. */
    ghost predicate QuadsValid()
      reads this`quadIndex, this`quadBatches, this`quadsDrawn, quadBuffer
    {
      && quadBuffer.Length == MaxVertices
      && quadIndex <= MaxVertices
      && Bounded(quadBatches)
      && Flatten(quadBatches) + quadBuffer[..quadIndex] == quadsDrawn
    }

    /** The same for circles. */
    ghost predicate CirclesValid()
      reads this`circleIndex, this`circleBatches, this`circlesDrawn, circleBuffer
    {
      && circleBuffer.Length == MaxVertices
      && circleIndex <= MaxVertices
      && Bounded(circleBatches)
      && Flatten(circleBatches) + circleBuffer[..circleIndex] == circlesDrawn
    }

    /** init: both buffers hold max_vertices entries and start empty. */
    constructor ()
      ensures QuadsValid() && CirclesValid()
      ensures quadIndex == 0 && circleIndex == 0
      ensures quadBatches == [] && circleBatches == [] && quadsDrawn == [] && circlesDrawn == []
      ensures fresh(quadBuffer) && fresh(circleBuffer)
    {
      quadBuffer := new QuadVertex[MaxVertices](_ => QuadVertex(Zero3, Zero2, Vec4(0.0, 0.0, 0.0, 0.0)));
      circleBuffer := new CircleData[MaxVertices](_ => CircleData(Zero3, 0.0, Vec4(0.0, 0.0, 0.0, 0.0)));
      quadIndex, circleIndex := 0, 0;
      quadBatches, circleBatches := [], [];
      quadsDrawn, circlesDrawn := [], [];
    }

    /**
     * render_quads: an empty batch is not uploaded; otherwise entries
     * [0, quad_index) are uploaded and the index goes back to 0.
     */
    method RenderQuads()
      requires QuadsValid()
      modifies this`quadIndex, this`quadBatches
      ensures QuadsValid()
      ensures quadIndex == 0
      ensures old(quadIndex) == 0 ==> quadBatches == old(quadBatches)
      ensures old(quadIndex) > 0 ==> quadBatches == old(quadBatches) + [old(quadBuffer[..quadIndex])]
      ensures Flatten(quadBatches) == Flatten(old(quadBatches)) + old(quadBuffer[..quadIndex])
    {
      if quadIndex == 0 {
        return;
      }
      FlattenSnoc(quadBatches, quadBuffer[..quadIndex]);
      quadBatches := quadBatches + [quadBuffer[..quadIndex]];
      quadIndex := 0;
    }

    /** render_circles: the same for the circle buffer. */
    method RenderCircles()
      requires CirclesValid()
      modifies this`circleIndex, this`circleBatches
      ensures CirclesValid()
      ensures circleIndex == 0
      ensures old(circleIndex) == 0 ==> circleBatches == old(circleBatches)
      ensures old(circleIndex) > 0 ==> circleBatches == old(circleBatches) + [old(circleBuffer[..circleIndex])]
      ensures Flatten(circleBatches) == Flatten(old(circleBatches)) + old(circleBuffer[..circleIndex])
    {
      if circleIndex == 0 {
        return;
      }
      FlattenSnoc(circleBatches, circleBuffer[..circleIndex]);
      circleBatches := circleBatches + [circleBuffer[..circleIndex]];
      circleIndex := 0;
    }

    /**
     * draw_quad: a full buffer is flushed first; then the quad is written at
     * quad_index and the index moves past it.
     */
    method DrawQuad(position: Vec3, size: Vec2, color: Vec4)
      requires QuadsValid()
      modifies this`quadIndex, this`quadBatches, this`quadsDrawn, quadBuffer
      ensures QuadsValid()
      ensures quadsDrawn == old(quadsDrawn) + [QuadVertex(position, size, color)]
      ensures old(quadIndex) == MaxVertices ==>
        quadBatches == old(quadBatches) + [old(quadBuffer[..quadIndex])] && quadIndex == 1
      ensures old(quadIndex) < MaxVertices ==>
        quadBatches == old(quadBatches) && quadIndex == old(quadIndex) + 1
      ensures 1 <= quadIndex && quadBuffer[quadIndex - 1] == QuadVertex(position, size, color)
    {
      if quadIndex == MaxVertices {
        RenderQuads();
      }
      ghost var pending := quadBuffer[..quadIndex];
      quadBuffer[quadIndex] := QuadVertex(position, size, color);
      assert quadBuffer[..quadIndex + 1] == pending + [QuadVertex(position, size, color)];
      quadIndex := quadIndex + 1;
      quadsDrawn := quadsDrawn + [QuadVertex(position, size, color)];
    }

    /** draw_circle: the same for circles. */
    method DrawCircle(position: Vec3, radius: real, color: Vec4)
      requires CirclesValid()
      modifies this`circleIndex, this`circleBatches, this`circlesDrawn, circleBuffer
      ensures CirclesValid()
      ensures circlesDrawn == old(circlesDrawn) + [CircleData(position, radius, color)]
      ensures old(circleIndex) == MaxVertices ==>
        circleBatches == old(circleBatches) + [old(circleBuffer[..circleIndex])] && circleIndex == 1
      ensures old(circleIndex) < MaxVertices ==>
        circleBatches == old(circleBatches) && circleIndex == old(circleIndex) + 1
      ensures 1 <= circleIndex && circleBuffer[circleIndex - 1] == CircleData(position, radius, color)
    {
      if circleIndex == MaxVertices {
        RenderCircles();
      }
      ghost var pending := circleBuffer[..circleIndex];
      circleBuffer[circleIndex] := CircleData(position, radius, color);
      assert circleBuffer[..circleIndex + 1] == pending + [CircleData(position, radius, color)];
      circleIndex := circleIndex + 1;
      circlesDrawn := circlesDrawn + [CircleData(position, radius, color)];
    }

    /**
     * end: flushes quads, then circles. Afterwards both buffers are empty
     * and the uploads hold every draw call, in the order of the calls.
     */
    method End()
      requires QuadsValid() && CirclesValid()
      modifies this`quadIndex, this`quadBatches, this`circleIndex, this`circleBatches
      ensures QuadsValid() && CirclesValid()
      ensures quadIndex == 0 && circleIndex == 0
      ensures Flatten(quadBatches) == quadsDrawn
      ensures Flatten(circleBatches) == circlesDrawn
    {
      RenderQuads();
      RenderCircles();
    }
  }
}
