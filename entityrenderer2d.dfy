/**
 * The entity-driven 2D renderer: render walks every circle entity and
 * every quad entity, writing them into fixed-size CPU buffers that are
 * uploaded and drawn whenever they are full, and once more at the end of
 * each walk. Circles are one point each; quads are two triangles, six
 * vertices, and a quad is never split between two uploads.
 *
 * The entities are given as sequences in the registry's view order, and
 * the GPU side is the list of uploaded batches, as in the other renderer.
 */
module EntityRenderer2D {
  import opened Geometry
  import opened Renderer2D

  /** One vertex of a quad triangle. */
  datatype Corner = Corner(position: Vec3)

  /** One circle point: its centre and radius. */
  datatype Disc = Disc(position: Vec3, radius: real)

  /** A circle entity: its Position and Radius components. */
  datatype CircleEntity = CircleEntity(position: Vec3, radius: real)

  /** A quad entity: its centre position and size. */
  datatype QuadEntity = QuadEntity(position: Vec3, size: Vec2)

  /** The lower-left corner of a quad: its position minus half its size. */
  function Origin(q: QuadEntity): (p: Vec3)
    ensures p.z == q.position.z
  {
    Sub3(q.position, Scale3(0.5, Lift(q.size)))
  }

  /**
   * The six vertices of a quad, two triangles sharing the diagonal
   * (p + (w, 0), p + (0, h)).
   */
  function Corners(q: QuadEntity): (cs: seq<Corner>)
    ensures |cs| == 6
  {
    var p := Origin(q);
    var w := Vec3(q.size.x, 0.0, 0.0);
    var h := Vec3(0.0, q.size.y, 0.0);
    [Corner(p), Corner(Add3(p, w)), Corner(Add3(p, h)),
     Corner(Add3(p, Lift(q.size))), Corner(Add3(p, w)), Corner(Add3(p, h))]
  }

  /**
   * The six vertices cover the quad centred at its position: the first and
   * fourth are opposite corners whose midpoint is the position and whose
   * difference is the size, the second and third are the other diagonal,
   * and the second triangle repeats that diagonal.
   */
  lemma CornersCentred(q: QuadEntity)
    ensures var cs := Corners(q);
      && Scale3(0.5, Add3(cs[0].position, cs[3].position)) == q.position
      && Scale3(0.5, Add3(cs[1].position, cs[2].position)) == q.position
      && Sub3(cs[3].position, cs[0].position) == Lift(q.size)
      && Sub3(cs[1].position, cs[0].position) == Vec3(q.size.x, 0.0, 0.0)
      && Sub3(cs[2].position, cs[0].position) == Vec3(0.0, q.size.y, 0.0)
      && cs[4] == cs[1] && cs[5] == cs[2]
      && forall i :: 0 <= i < 6 ==> cs[i].position.z == q.position.z
  {
  }

  /** The vertices of a run of quads, quad after quad. */
  function AllCorners(qs: seq<QuadEntity>): (r: seq<Corner>)
    ensures |r| == 6 * |qs|
  {
    if |qs| == 0 then [] else AllCorners(qs[..|qs| - 1]) + Corners(qs[|qs| - 1])
  }

  /** One more quad adds its six vertices at the end. */
  lemma AllCornersStep(qs: seq<QuadEntity>, j: nat)
    requires j < |qs|
    ensures AllCorners(qs[..j + 1]) == AllCorners(qs[..j]) + Corners(qs[j])
  {
    assert qs[..j + 1][..j] == qs[..j];
  }

  /** Appending one quad's vertices to a log: concatenation is associative. */
  lemma Regrouped(log: seq<Corner>, done: seq<Corner>, more: seq<Corner>)
    ensures (log + done) + more == log + (done + more)
  {
  }

  /** The quad at position k of the run owns vertices [6k, 6k + 6). */
  lemma {:induction false} AllCornersAt(qs: seq<QuadEntity>, k: nat)
    requires k < |qs|
    ensures AllCorners(qs)[6 * k..6 * k + 6] == Corners(qs[k])
  {
    var n := |qs| - 1;
    if k < n {
      AllCornersAt(qs[..n], k);
      assert qs[..n][k] == qs[k];
      assert AllCorners(qs)[..6 * n] == AllCorners(qs[..n]);
    } else {
      assert AllCorners(qs)[6 * k..] == Corners(qs[k]);
    }
  }

  /** The point each circle entity becomes. */
  function Discs(cs: seq<CircleEntity>): (r: seq<Disc>)
    ensures |r| == |cs|
    ensures forall i :: 0 <= i < |cs| ==> r[i] == Disc(cs[i].position, cs[i].radius)
  {
    seq(|cs|, i requires 0 <= i < |cs| => Disc(cs[i].position, cs[i].radius))
  }

  /** Every batch holds whole quads. */
  ghost predicate WholeQuads(batches: seq<seq<Corner>>)
  {
    forall i :: 0 <= i < |batches| ==> |batches[i]| % 6 == 0
  }

  class EntityRenderer2D {
    const quadBuffer: array<Corner>
    const circleBuffer: array<Disc>
    var quadIndex: nat
    var circleIndex: nat
    /** The contents of every quad upload, in order. */
    var quadBatches: seq<seq<Corner>>
    /** The contents of every circle upload, in order. */
    var circleBatches: seq<seq<Disc>>
    /** Every quad vertex written since init, in order. */
    ghost var quadsDrawn: seq<Corner>
    /** Every circle point written since init, in order. */
    ghost var circlesDrawn: seq<Disc>

    /**
     * The quad index stays within the buffer and on a quad boundary,
     * every upload holds whole quads, and nothing written is lost or
     * reordered.
     */
    ghost predicate QuadsValid()
      reads this`quadIndex, this`quadBatches, this`quadsDrawn, quadBuffer
    {
      && quadBuffer.Length == MaxVertices
      && quadIndex <= MaxVertices
      && quadIndex % 6 == 0
      && Bounded(quadBatches)
      && WholeQuads(quadBatches)
      && Flatten(quadBatches) + quadBuffer[..quadIndex] == quadsDrawn
    }

    /**
     * Between draws the circle buffer is never full: a write that fills it
     * is flushed at once, so the next write always has room.
     */
    ghost predicate CirclesValid()
      reads this`circleIndex, this`circleBatches, this`circlesDrawn, circleBuffer
    {
      CirclesHeld() && circleIndex < MaxVertices
    }

    /** The circle index stays within the buffer and nothing written is lost or reordered. */
    ghost predicate CirclesHeld()
      reads this`circleIndex, this`circleBatches, this`circlesDrawn, circleBuffer
    {
      && circleBuffer.Length == MaxVertices
      && circleIndex <= MaxVertices
      && Bounded(circleBatches)
      && Flatten(circleBatches) + circleBuffer[..circleIndex] == circlesDrawn
    }

    /** init: both buffers hold max_vertices entries and start empty. */
    constructor ()
      ensures QuadsValid() && CirclesValid()
      ensures quadIndex == 0 && circleIndex == 0
      ensures quadBatches == [] && circleBatches == [] && quadsDrawn == [] && circlesDrawn == []
      ensures fresh(quadBuffer) && fresh(circleBuffer)
    {
      quadBuffer := new Corner[MaxVertices](_ => Corner(Zero3));
      circleBuffer := new Disc[MaxVertices](_ => Disc(Zero3, 0.0));
      quadIndex, circleIndex := 0, 0;
      quadBatches, circleBatches := [], [];
      quadsDrawn, circlesDrawn := [], [];
    }

    /**
     * render_quads: an empty batch is not uploaded; otherwise entries
     * [0, quad_index) are uploaded and the index goes back to 0.
     */
    method RenderQuads()
      requires QuadsValid()
      modifies this`quadIndex, this`quadBatches
      ensures QuadsValid()
      ensures quadIndex == 0
      ensures old(quadIndex) == 0 ==> quadBatches == old(quadBatches)
      ensures old(quadIndex) > 0 ==> quadBatches == old(quadBatches) + [old(quadBuffer[..quadIndex])]
    {
      if quadIndex == 0 {
        return;
      }
      FlattenSnoc(quadBatches, quadBuffer[..quadIndex]);
      quadBatches := quadBatches + [quadBuffer[..quadIndex]];
      quadIndex := 0;
    }

    /** render_circles: the same for the circle buffer. */
    method RenderCircles()
      requires CirclesHeld()
      modifies this`circleIndex, this`circleBatches
      ensures CirclesValid()
      ensures circleIndex == 0
      ensures old(circleIndex) == 0 ==> circleBatches == old(circleBatches)
      ensures old(circleIndex) > 0 ==> circleBatches == old(circleBatches) + [old(circleBuffer[..circleIndex])]
    {
      if circleIndex == 0 {
        return;
      }
      FlattenSnoc(circleBatches, circleBuffer[..circleIndex]);
      circleBatches := circleBatches + [circleBuffer[..circleIndex]];
      circleIndex := 0;
    }

    /**
     * One pass of the circle loop: the point is written at circle_index,
     * the index advances, and a buffer that has become full is flushed at
     * once.
     */
    method PushCircle(c: CircleEntity)
      requires CirclesValid()
      modifies this`circleIndex, this`circleBatches, this`circlesDrawn, circleBuffer
      ensures CirclesValid()
      ensures circlesDrawn == old(circlesDrawn) + [Disc(c.position, c.radius)]
      ensures circleIndex < MaxVertices
      ensures old(circleIndex) + 1 == MaxVertices ==>
        circleBatches == old(circleBatches) + [old(circleBuffer[..circleIndex]) + [Disc(c.position, c.radius)]]
        && circleIndex == 0
      ensures old(circleIndex) + 1 < MaxVertices ==>
        circleBatches == old(circleBatches) && circleIndex == old(circleIndex) + 1
        && circleBuffer[old(circleIndex)] == Disc(c.position, c.radius)
    {
      ghost var pending := circleBuffer[..circleIndex];
      circleBuffer[circleIndex] := Disc(c.position, c.radius);
      assert circleBuffer[..circleIndex + 1] == pending + [Disc(c.position, c.radius)];
      circleIndex := circleIndex + 1;
      circlesDrawn := circlesDrawn + [Disc(c.position, c.radius)];
      if circleIndex == MaxVertices {
        RenderCircles();
      }
    }

    /**
     * One pass of the quad loop: when six more vertices would not fit, the
     * buffer is flushed first; then the quad's six vertices are written at
     * [quad_index, quad_index + 6) and the index advances by six.
     */
    method PushQuad(q: QuadEntity)
      requires QuadsValid()
      modifies this`quadIndex, this`quadBatches, this`quadsDrawn, quadBuffer
      ensures QuadsValid()
      ensures quadsDrawn == old(quadsDrawn) + Corners(q)
      ensures old(quadIndex) + 6 > MaxVertices ==>
        quadBatches == old(quadBatches) + [old(quadBuffer[..quadIndex])] && quadIndex == 6
      ensures old(quadIndex) + 6 <= MaxVertices ==>
        quadBatches == old(quadBatches) && quadIndex == old(quadIndex) + 6
      ensures quadBuffer[quadIndex - 6..quadIndex] == Corners(q)
    {
      if quadIndex + 6 > MaxVertices {
        RenderQuads();
      }
      ghost var pending := quadBuffer[..quadIndex];
      WriteCorners(quadIndex, q);
      assert quadBuffer[..quadIndex + 6] == pending + Corners(q);
      Regrouped(Flatten(quadBatches), pending, Corners(q));
      quadIndex := quadIndex + 6;
      quadsDrawn := quadsDrawn + Corners(q);
    }

    /** The six writes of one quad, at [at, at + 6); the entries before them stay. */
    method WriteCorners(at: nat, q: QuadEntity)
      requires at + 6 <= quadBuffer.Length
      modifies quadBuffer
      ensures quadBuffer[..at] == old(quadBuffer[..at])
      ensures quadBuffer[at..at + 6] == Corners(q)
    {
      var p := Origin(q);
      var w := Vec3(q.size.x, 0.0, 0.0);
      var h := Vec3(0.0, q.size.y, 0.0);
      quadBuffer[at] := Corner(p);
      quadBuffer[at + 1] := Corner(Add3(p, w));
      quadBuffer[at + 2] := Corner(Add3(p, h));
      quadBuffer[at + 3] := Corner(Add3(p, Lift(q.size)));
      quadBuffer[at + 4] := Corner(Add3(p, w));
      quadBuffer[at + 5] := Corner(Add3(p, h));
    }

    /**
     * The circle half of render: every circle entity is written in view
     * order, and the buffer is flushed once more at the end.
     */
    method RenderCircleEntities(circles: seq<CircleEntity>)
      requires CirclesValid()
      modifies this`circleIndex, this`circleBatches, this`circlesDrawn, circleBuffer
      ensures CirclesValid() && circleIndex == 0
      ensures circlesDrawn == old(circlesDrawn) + Discs(circles)
    {
      var i := 0;
      while i < |circles|
        invariant 0 <= i <= |circles|
        invariant CirclesValid()
        invariant circlesDrawn == old(circlesDrawn) + Discs(circles[..i])
      {
        assert Discs(circles[..i + 1]) == Discs(circles[..i]) + [Disc(circles[i].position, circles[i].radius)];
        PushCircle(circles[i]);
        i := i + 1;
      }
      assert circles[..i] == circles;
      RenderCircles();
    }

    /**
     * The quad half of render: every quad entity's six vertices are
     * written in view order, and the buffer is flushed once more at the end.
     */
    method RenderQuadEntities(quads: seq<QuadEntity>)
      requires QuadsValid()
      modifies this`quadIndex, this`quadBatches, this`quadsDrawn, quadBuffer
      ensures QuadsValid() && quadIndex == 0
      ensures quadsDrawn == old(quadsDrawn) + AllCorners(quads)
    {
      var j := 0;
      while j < |quads|
        invariant 0 <= j <= |quads|
        invariant QuadsValid()
        invariant quadsDrawn == old(quadsDrawn) + AllCorners(quads[..j])
      {
        AllCornersStep(quads, j);
        Regrouped(old(quadsDrawn), AllCorners(quads[..j]), Corners(quads[j]));
        PushQuad(quads[j]);
        j := j + 1;
      }
      assert quads[..j] == quads;
      RenderQuads();
    }

    /**
     * render: every circle entity, then every quad entity, is written and
     * flushed. Afterwards both buffers are empty, the uploads hold exactly
     * the entities' points and vertices in view order, and no quad is
     * split between two uploads.
     */
    method Render(circles: seq<CircleEntity>, quads: seq<QuadEntity>)
      requires QuadsValid() && CirclesValid()
      modifies this`quadIndex, this`quadBatches, this`quadsDrawn, quadBuffer
      modifies this`circleIndex, this`circleBatches, this`circlesDrawn, circleBuffer
      ensures QuadsValid() && CirclesValid() && WholeQuads(quadBatches)
      ensures quadIndex == 0 && circleIndex == 0
      ensures circlesDrawn == old(circlesDrawn) + Discs(circles)
      ensures quadsDrawn == old(quadsDrawn) + AllCorners(quads)
      ensures Flatten(circleBatches) == circlesDrawn
      ensures Flatten(quadBatches) == quadsDrawn
    {
      RenderCircleEntities(circles);
      RenderQuadEntities(quads);
    }
  }
}
