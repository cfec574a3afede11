/**
 * The part of the entt registry the 2D engine touches: the live entities in
 * iteration order and the Transform, Collision2D and Motion2D component
 * pools. A view is the subsequence of live entities holding a given set of
 * components.
 */
module EntityRegistry {
  import opened Geometry
  import opened Physics2DComponents

  predicate Distinct(es: seq<Entity>)
  {
    forall i, j :: 0 <= i < j < |es| ==> es[i] != es[j]
  }

  /** The entities of `es` that lie in `keys`, in their order: an entt view. */
  function Having(es: seq<Entity>, keys: set<Entity>): (v: seq<Entity>)
    ensures forall e :: e in v <==> e in es && e in keys
    ensures |v| <= |es|
  {
    if |es| == 0 then []
    else (if es[0] in keys then [es[0]] else []) + Having(es[1..], keys)
  }

  /** A view of distinct entities has distinct entities. */
  lemma {:induction false} HavingDistinct(es: seq<Entity>, keys: set<Entity>)
    requires Distinct(es)
    ensures Distinct(Having(es, keys))
  {
    if |es| > 0 {
      assert Distinct(es[1..]) by {
        forall i, j | 0 <= i < j < |es[1..]| ensures es[1..][i] != es[1..][j] {
          assert es[1..][i] == es[i + 1] && es[1..][j] == es[j + 1];
        }
      }
      HavingDistinct(es[1..], keys);
      assert forall j :: 0 <= j < |es[1..]| ==> es[1..][j] == es[j + 1] != es[0];
    }
  }

  /** x occurs in `es` before some occurrence of y. */
  predicate Precedes(es: seq<Entity>, x: Entity, y: Entity)
  {
    exists a, b :: 0 <= a < b < |es| && es[a] == x && es[b] == y
  }

  /** The entities of `v` occur in `es` in the same relative order. */
  predicate InOrder(v: seq<Entity>, es: seq<Entity>)
  {
    forall i, j :: 0 <= i < j < |v| ==> Precedes(es, v[i], v[j])
  }

  /** A view lists its entities in the order of the registry. */
  lemma {:induction false} HavingOrder(es: seq<Entity>, keys: set<Entity>)
    ensures InOrder(Having(es, keys), es)
  {
    if |es| == 0 {
      assert Having(es, keys) == [];
    } else {
      var v, rest := Having(es, keys), Having(es[1..], keys);
      HavingOrder(es[1..], keys);
      var d := if es[0] in keys then 1 else 0;
      assert v == (if es[0] in keys then [es[0]] else []) + rest;
      forall i, j | 0 <= i < j < |v|
        ensures Precedes(es, v[i], v[j])
      {
        assert v[j] == rest[j - d];
        if i < d {
          assert v[i] == es[0];
          assert rest[j - d] in es[1..];
          var b' :| 0 <= b' < |es[1..]| && es[1..][b'] == rest[j - d];
          assert es[0] == v[i] && es[b' + 1] == v[j];
        } else {
          assert v[i] == rest[i - d];
          assert Precedes(es[1..], rest[i - d], rest[j - d]);
          var a', b' :| 0 <= a' < b' < |es[1..]| && es[1..][a'] == rest[i - d] && es[1..][b'] == rest[j - d];
          assert es[a' + 1] == v[i] && es[b' + 1] == v[j];
        }
      }
    }
  }

  /** Every transform with a velocity moved by `dt` times that velocity. */
  function Advanced(ts: map<Entity, Transform>, ms: map<Entity, Vec2>, dt: real): (r: map<Entity, Transform>)
    ensures r.Keys == ts.Keys
  {
    map e | e in ts :: if e in ms then TranslateBy(ts[e], Scale(dt, ms[e])) else ts[e]
  }

  /**
   * Advancing is a flow: by zero it changes nothing, and advancing by a and
   * then by b with the same velocities is advancing by a + b.
   */
  lemma AdvancedFlow(ts: map<Entity, Transform>, ms: map<Entity, Vec2>, a: real, b: real)
    ensures Advanced(ts, ms, 0.0) == ts
    ensures Advanced(Advanced(ts, ms, a), ms, b) == Advanced(ts, ms, a + b)
  {
    var r1, r2 := Advanced(Advanced(ts, ms, a), ms, b), Advanced(ts, ms, a + b);
    forall e | e in ts ensures r1[e] == r2[e] {
      if e in ms {
        var v := ms[e];
        assert a * v.x + b * v.x == (a + b) * v.x;
        assert a * v.y + b * v.y == (a + b) * v.y;
      }
    }
    assert r1 == r2;
    forall e | e in ts ensures Advanced(ts, ms, 0.0)[e] == ts[e] {
    }
    assert Advanced(ts, ms, 0.0) == ts;
  }

  /** `Advanced` for the entities of `done` only; the others keep their transform. */
  ghost function AdvancedOn(ts: map<Entity, Transform>, ms: map<Entity, Vec2>, done: set<Entity>, dt: real): map<Entity, Transform>
  {
    map e | e in ts :: if e in ms && e in done then TranslateBy(ts[e], Scale(dt, ms[e])) else ts[e]
  }

  lemma AdvancedOnStep(ts: map<Entity, Transform>, ms: map<Entity, Vec2>, done: set<Entity>, e: Entity, dt: real)
    requires e in ts && e in ms && e !in done
    ensures AdvancedOn(ts, ms, done + {e}, dt) == AdvancedOn(ts, ms, done, dt)[e := TranslateBy(ts[e], Scale(dt, ms[e]))]
  {
    assert AdvancedOn(ts, ms, done + {e}, dt).Keys == AdvancedOn(ts, ms, done, dt)[e := TranslateBy(ts[e], Scale(dt, ms[e]))].Keys;
  }

  lemma AdvancedOnAll(ts: map<Entity, Transform>, ms: map<Entity, Vec2>, done: set<Entity>, dt: real)
    requires forall e :: e in ts && e in ms ==> e in done
    ensures AdvancedOn(ts, ms, done, dt) == Advanced(ts, ms, dt)
  {
    forall e | e in ts
      ensures AdvancedOn(ts, ms, done, dt)[e] == Advanced(ts, ms, dt)[e]
    {
    }
  }

  class Registry {
    var entities: seq<Entity>
    var transforms: map<Entity, Transform>
    var colliders: map<Entity, Collider>
    var motions: map<Entity, Vec2>
    /** Simulated time: how far the world has been advanced in total. */
    ghost var now: real

    constructor()
      ensures entities == [] && transforms == map[] && colliders == map[] && motions == map[]
      ensures now == 0.0
    {
      entities, transforms, colliders, motions := [], map[], map[], map[];
      now := 0.0;
    }

    /** Each entity is live once, and components belong to live entities. */
    ghost predicate Valid()
      reads this
    {
      && Distinct(entities)
      && (forall e :: e in transforms ==> e in entities)
      && (forall e :: e in colliders ==> e in entities)
      && (forall e :: e in motions ==> e in entities)
    }

    /** A live entity with a transform, a shape and a velocity. */
    predicate IsMoving(e: Entity)
      reads this
    {
      e in entities && e in transforms && e in colliders && e in motions
    }

    /** A live entity with a transform and a shape but no velocity. */
    predicate IsFixed(e: Entity)
      reads this
    {
      e in entities && e in transforms && e in colliders && e !in motions
    }

    /** `view<Transform, Collision2D, Motion2D>`: the moving colliders. */
    function Moving(): (v: seq<Entity>)
      reads this
      ensures forall e :: e in v <==> IsMoving(e)
      ensures forall k :: 0 <= k < |v| ==> IsMoving(v[k])
      ensures Valid() ==> Distinct(v)
    {
      var keys := transforms.Keys * colliders.Keys * motions.Keys;
      assert Valid() ==> Distinct(Having(entities, keys)) by {
        if Valid() { HavingDistinct(entities, keys); }
      }
      Having(entities, keys)
    }

    /** `view<Transform, Collision2D>(exclude<Motion2D>)`: the static colliders. */
    function Fixed(): (v: seq<Entity>)
      reads this
      ensures forall e :: e in v <==> IsFixed(e)
      ensures forall k :: 0 <= k < |v| ==> IsFixed(v[k])
      ensures Valid() ==> Distinct(v)
    {
      var keys := (transforms.Keys * colliders.Keys) - motions.Keys;
      assert Valid() ==> Distinct(Having(entities, keys)) by {
        if Valid() { HavingDistinct(entities, keys); }
      }
      Having(entities, keys)
    }

    /** Both collider views list their entities in registry order. */
    lemma ViewsOrdered()
      ensures InOrder(Moving(), entities) && InOrder(Fixed(), entities)
    {
      HavingOrder(entities, transforms.Keys * colliders.Keys * motions.Keys);
      HavingOrder(entities, (transforms.Keys * colliders.Keys) - motions.Keys);
    }

    /** `view<Transform, Motion2D>`: everything that moves. */
    function Movables(): seq<Entity>
      reads this
    {
      Having(entities, transforms.Keys * motions.Keys)
    }

    /**
     * The loop over `view<Transform, Motion2D>` calling
     * `translate_by(dt * velocity)`: every movable body moves by dt times
     * its velocity, nothing else changes.
     */
    method Advance(dt: real)
      requires Valid()
      modifies this`transforms, this`now
      ensures transforms == Advanced(old(transforms), motions, dt)
      ensures entities == old(entities) && colliders == old(colliders) && motions == old(motions)
      ensures now == old(now) + dt
    {
      var view := Movables();
      HavingDistinct(entities, transforms.Keys * motions.Keys);
      ghost var done: set<Entity> := {};
      for i := 0 to |view|
        invariant now == old(now)
        invariant forall x :: x in done ==> x in view[..i]
        invariant forall k :: 0 <= k < i ==> view[k] in done
        invariant transforms == AdvancedOn(old(transforms), motions, done, dt)
      {
        var e := view[i];
        assert e in view;
        assert e !in view[..i];
        AdvancedOnStep(old(transforms), motions, done, e, dt);
        transforms := transforms[e := TranslateBy(transforms[e], Scale(dt, motions[e]))];
        done := done + {e};
      }
      forall x | x in old(transforms) && x in motions
        ensures x in done
      {
        var k :| 0 <= k < |view| && view[k] == x;
      }
      AdvancedOnAll(old(transforms), motions, done, dt);
      now := now + dt;
    }
  }
}
