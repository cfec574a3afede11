# Breakout.cpp physics and rendering bookkeeping, in Dafny

This project models the arithmetic and bookkeeping core of the Breakout.cpp
game engine and proves properties of it.

- **Continuous 2D collision engine** (`PhysicsEngine2D`). It keeps a queue of
  predicted hits (`m_hitlist`) and a map from each moving body to the time of
  its committed collision (`m_earliest`). It rebuilds both from scratch
  (`construct`), re-derives one body's next hit and cascades the
  invalidations (`calculate_collision`), and purges an entity
  (`delete_entity`). `process(dt)` consumes the hits that fall within a time
  budget, resolving each one with an elastic or reflecting response.
  - Modules: `Engine2D` (the class), `HitQueue` (pure functions over the
    queue and map), `EntityRegistry` (the entt views it walks) and `Response`
    (the velocity responses).
  - Modules: `Swept` (the four closed-form solvers and the shape dispatcher)
    and `Physics2DComponents` (`HitData`, `Collision2D`, the shape
    conversions).
- **Discrete physics system** (`Physics2D` in `Physics.hpp`): the open-box
  overlap test, the one-dimensional zero-crossing time, the reflection
  response, constant-acceleration motion and the local-to-world bounds.
  - Modules: `DiscretePhysics`, `MotionComponent` and `Boundingbox2DComponent`.
- **Box geometry of the renderer** (`Component::BoundingBox2D` and
  `HitResult`): translations, overlap, point distance, the ray, circle and
  axis-scaled circle hit parameters and the reflection matrix.
  - Module: `BoxGeometry`.
- **Rendering bookkeeping.**
  - Vertex-layout offsets and stride: `BufferLayout`.
  - Shader-source classification and texture-slot allocation: `Shader`.
  - The two batched 2D renderers, which flush a full vertex buffer before
    writing on: `Renderer2D` and `EntityRenderer2D`.
  - The uv arithmetic of a regular texture atlas: `TextureAtlas`.
  - The index layout of a voxel chunk: `Voxel`.

## Modelling conventions

- Geometry uses `real` throughout. `Geometry` holds the small vector algebra
  standing in for glm.
- `sqrtf` is a function value `sqrt: real -> real`. Lemmas that need its
  defining property require `IsSqrt(sqrt)`.
- Where the C++ would compute NaN, the model answers "no hit" (`None`). Every
  comparison with NaN is false, so no branch that reports a hit is taken.
  The discrete system's zero times are the exception: there NaN is a value
  of `Time`, and `std::min`, `<` and `glm::sign` treat it as the source does.
  - This covers a zero leading coefficient and a negative discriminant.
  - `glm::normalize` of the zero vector returns the vector unchanged.
- `INVALID_TIME` (`FLT_MAX`) is the real number 340282346638528859811704183484516925440.
- The hit queue is a sequence. The model pops the first hit of least time: the
  hit a binary heap keyed on time yields while its order is intact.
- The source has two revisions of the collision engine, `Physics2D.hpp`
  (inline) and `Physics2D.cpp`. The engine has a `revision` constant, and each
  revision's own code is followed. The revisions differ in two places:
  - the circle–rect corner offsets: ±wh in the header, ±½wh in the .cpp file;
  - the callbacks: the header passes `collision_callback` to `process`, while
    the .cpp file fires `on_collision` inside `resolve_hit`.
- Callbacks are recorded as event logs and never destroy entities.
- The undefined iterator uses in the source are replaced by their intended
  semantics:
  - `delete_entity` is a filter;
  - the cleanup loop of `construct` is a filter;
  - the invalidation cascade of `calculate_collision` removes the stale hits
    first, then recomputes each orphan.
  - `process` (src/physics/Physics2D.cpp:80-95, and the header's copy at
    src/physics/Physics2D.hpp:268-287) keeps a reference `hit` to the last
    element of the hit list, pops that element, and reads `hit.entity1`,
    `hit.dynamic` and `hit.entity2` after `resolve_hit` and
    `calculate_collision` may have pushed a new hit into the same slot or
    reallocated the list. The model reads a copy of the hit taken before it
    is popped.
  The cascade as written is also modelled; see Findings.
- Recursion and the event loop are bounded:
  - the cascade of `calculate_collision` recurses at most `cascadeLimit` deep;
  - `process` resolves at most `maxEvents` hits per call.
- The GPU side of the renderers (`set_data` followed by `glDrawArrays`) is a
  list of uploaded batches. A ghost log records every draw call.

## Model

| member | source | states |
|---|---|---|
| Geometry.Sign | src/physics/Physics2D.hpp:560-567 | glm::sign is -1, 0 or 1 and has the sign of its argument; it gives the rect–rect normal. |
| Geometry.NormalizeIsUnit | src/physics/Physics2D.hpp:526 | The normalized non-zero gap used as a hit normal has unit length. |
| Geometry.NormalizeNeg | src/physics/Physics2D.hpp:494-498 | Normalizing a negated vector negates the normal, as the rect-versus-circle dispatch does. |
| Physics2DComponents.TranslateBy | src/Scene/Components.hpp:64-66 | translate_by(vec2) moves x and y by the vector and keeps z and the scale. |
| Physics2DComponents.Translated | src/Scene/Components.hpp:61-63 | translate_by(vec3) moves the position by the vector and keeps the scale. |
| Physics2DComponents.ShapeFromTag | src/physics/Physics2D.hpp:37-45 | BoundingShape(uint8_t): the unit square for Rect2D, the unit circle at 0 for Circle, an error for any other tag; the shape member is never written. |
| Physics2DComponents.CircleAt | src/physics/Physics2D.hpp:46 | BoundingShape(o) is a Circle of radius 1 around o. |
| Physics2DComponents.CircleShape | src/physics/Physics2D.hpp:47 | BoundingShape(o, r) is a Circle with origin o and radius r. |
| Physics2DComponents.RectShape | src/physics/Physics2D.hpp:48 | BoundingShape(l, r, b, t) is a Rect2D with those four edges. |
| Physics2DComponents.RectCollider | src/physics/Physics2D.hpp:54-61 | The rectangle Collision2D constructors: the rectangle shape, with mass 1 unless a mass is given. |
| Physics2DComponents.CircleCollider | src/physics/Physics2D.hpp:62-69 | The circle Collision2D constructors: the circle shape, with mass 1 unless a mass is given. |
| Physics2DComponents.DefaultHit | src/physics/Physics2D.hpp:129-136 | HitData(): null entities, invalid, time INVALID_TIME, zero normal, dynamic. |
| Physics2DComponents.HitAt | src/physics/Physics2D.hpp:137-138 | HitData(a, b, p) is a valid hit of a and b at time p. |
| Physics2DComponents.HitWithValidity | src/physics/Physics2D.hpp:139-140 | HitData(a, b, p, v) has validity v and time p. |
| Physics2DComponents.HitOrder | src/physics/Physics2D.hpp:152-162 | An invalid left operand is neither smaller nor greater than anything; a valid one compares by time alone, and exactly one of <, > and equal times holds. |
| Physics2DComponents.ConvertAsRectGeometry | src/physics/Physics2D.hpp:351-358 | The rectangle's size is scale ⊙ (right − left, top − bottom), its centre the position plus the scaled midpoint, and its edges the scaled local edges moved by the position. |
| Physics2DComponents.ConvertAsCircleRadius | src/physics/Physics2D.hpp:360-364 | The circle's radius depends on scale.x alone and scales linearly with it. |
| Response.InverseMass | src/physics/Physics2D.cpp:129 | 1 / (m1 + m2) times the total mass is 1 whenever the total mass is non-zero. |
| Response.Energy | src/physics/Physics2D.cpp:128-132 | The doubled kinetic energy m1 ‖v1‖² + m2 ‖v2‖² is the sum of the per-axis energies. |
| Response.EnergySign | src/physics/Physics2D.cpp:128-132 | With masses that are not negative the energy is never negative; with positive masses it is zero exactly when both bodies are at rest. |
| Response.ElasticAxisConserves | src/physics/Physics2D.cpp:128-132 | Along one axis the elastic response keeps both momentum and kinetic energy. |
| Response.ElasticConserves | src/physics/Physics2D.cpp:128-132 | The elastic response keeps total momentum m1 v1 + m2 v2 componentwise, and total kinetic energy. |
| Response.ElasticAxisEqualMasses | src/physics/Physics2D.cpp:128-132 | Equal non-zero masses exchange their speeds along an axis. |
| Response.ElasticEqualMassesSwap | src/physics/Physics2D.cpp:128-132 | Equal non-zero masses exchange their velocities. |
| Response.ReflectIsMirror | src/physics/Physics2D.cpp:136 | For a unit normal, v − 2(n·v)n negates the normal component, keeps the tangential one, keeps the length and undoes itself. |
| Response.ReflectZeroNormal | src/physics/Physics2D.cpp:136 | A zero normal leaves the velocity unchanged. |
| EntityRegistry.Having | src/physics/Physics2D.cpp:17-18 | A view holds exactly the live entities that hold the components, and is no longer than the registry. |
| EntityRegistry.HavingOrder | src/physics/Physics2D.cpp:17-18 | A view lists its entities in registry order: any two of them occur in the registry in the same relative order. |
| EntityRegistry.HavingDistinct | src/physics/Physics2D.cpp:17-18 | A view of distinct live entities lists each entity once. |
| EntityRegistry.Advanced | src/physics/Physics2D.cpp:99-103 | Advancing by dt moves every transform with a velocity by dt times it, leaves the rest alone and keeps the set of transforms. |
| EntityRegistry.AdvancedFlow | src/physics/Physics2D.cpp:99-103 | Advancing is a flow: by zero it changes nothing, and by a then b it equals advancing by a + b. |
| EntityRegistry.Registry.constructor | src/physics/Physics2D.hpp:171 | An empty registry: no entities and no components. |
| EntityRegistry.Registry.Moving | src/physics/Physics2D.cpp:17 | view<Transform, Motion2D, Collision2D> holds exactly the live entities with all three components, without repeats when the registry is valid. |
| EntityRegistry.Registry.Fixed | src/physics/Physics2D.cpp:40 | The static view holds exactly the live entities with a transform and a shape but no Motion2D, without repeats when the registry is valid. |
| EntityRegistry.Registry.ViewsOrdered | src/physics/Physics2D.cpp:17-40 | Both collider views list their entities in registry order. |
| EntityRegistry.Registry.Advance | src/physics/Physics2D.cpp:99-103 | The translation loop moves every movable body by dt times its velocity and changes nothing else. |
| HitQueue.WithoutEntity | src/physics/Physics2D.cpp:3-11 | The queue after delete_entity holds exactly the hits not involving the entity. |
| HitQueue.WithoutEntityConcat | src/physics/Physics2D.cpp:3-11 | Purging works piecewise, so the kept hits stay in order. |
| HitQueue.WithoutEntityNone | src/physics/Physics2D.cpp:3-11 | A queue without a hit of the entity is left unchanged. |
| HitQueue.PushedFacts | src/physics/Physics2D.cpp:240-255 | push_to_hitlist skips invalid hits and hits whose reverse pair is queued, and otherwise appends exactly the hit. It never admits a pair together with its reverse, while a same-direction duplicate is accepted. |
| HitQueue.Shifted | src/physics/Physics2D.cpp:106-107 | Rebasing the queue keeps its length and its hits' entities, validity, flags and normals, and lowers each time by dt. |
| HitQueue.Rebased | src/physics/Physics2D.cpp:146-147 | Rebasing the earliest map keeps its keys and lowers each time by dt. |
| HitQueue.ShiftedFacts | src/physics/Physics2D.cpp:144-145 | Shifting keeps the order of times and their differences, and shifting by a then b is shifting by a + b. |
| HitQueue.ShiftedFloor | src/physics/Physics2D.cpp:106-107 | A lower bound lo on the queued times becomes lo − dt after the shift. |
| HitQueue.Invalidated | src/physics/Physics2D.cpp:150-152 | The hit's first entity, and its second for a dynamic hit, get INVALID_TIME; every other entry is kept. |
| HitQueue.EarliestIndex | src/physics/Physics2D.cpp:77-80 | The popped slot holds a hit no later than any other, and the first such hit. |
| HitQueue.RemoveAt | src/physics/Physics2D.cpp:86 | Taking a slot out leaves the other hits in order, one fewer. |
| HitQueue.Fan | src/physics/Physics2D.cpp:30-37 | One round of the inner loop pairs its entity with each later one, in order. |
| HitQueue.PairsUpToMembers | src/physics/Physics2D.cpp:25-52 | Through the counter offset, the first i rounds test exactly the pairs (d[a], d[b]) with a < b and a < i. |
| HitQueue.PairsUpToCount | src/physics/Physics2D.cpp:25-52 | All rounds together test n(n − 1)/2 pairs. |
| HitQueue.PairsOnce | src/physics/Physics2D.cpp:25-52 | Over distinct entities each unordered pair is tested in one direction only, and no entity is paired with itself. |
| HitQueue.WithDefaults | src/physics/Physics2D.cpp:183 | Reading operator[] inserts 0 for a missing key and changes nothing else. |
| HitQueue.WithDefaultsInsert | src/physics/Physics2D.cpp:183 | Reading one more key inserts 0 for it unless it is already there. |
| HitQueue.SettledOnly | src/physics/Physics2D.cpp:55-68 | The cleanup keeps, in order, exactly the hits whose time less 1e-6 is no later than the earliest times of their moving participants. |
| HitQueue.SettledOnlyNoReverse | src/physics/Physics2D.cpp:55-68 | The cleanup never brings a pair and its reverse together in the queue. |
| HitQueue.Survivors | src/physics/Physics2D.cpp:218-233 | After committing a dynamic hit, the queue keeps exactly the hits that are not stale, in order. |
| HitQueue.Orphans | src/physics/Physics2D.cpp:218-233 | The orphans are exactly the moving partners left behind by stale hits. |
| HitQueue.SurvivorsFacts | src/physics/Physics2D.cpp:216-233 | After the cleanup the partner keeps only hits whose first entity is the committed one, and the committed hit survives. |
| HitQueue.SplitStale | src/physics/Physics2D.cpp:218-233 | The walk over the queue returns exactly the survivors and the orphans of the committed hit. |
| HitQueue.ScanAsWritten | src/physics/Physics2D.cpp:219-233 | The scan as written never grows the queue, keeps only hits it was given and only appends orphans. |
| HitQueue.ScanAsWrittenCounterexample | src/physics/Physics2D.cpp:219-233 | On the queue [(1,2), (2,3), (4,2)], committing (1,2) as written keeps the stale (4,2) and orphans only 2. The intended cleanup keeps [(1,2)] and orphans 3 and 4. |
| Swept.QuadFactor | src/physics/Physics2D.hpp:515-521 | A quadratic with two roots r and s factors as a(t − r)(t − s). |
| Swept.QuadSquare | src/physics/Physics2D.hpp:515-521 | Completing the square: 4a·q(s) = (2as + b)² − (b² − 4ac). |
| Swept.QuadSigns | src/physics/Physics2D.hpp:515-521 | With a > 0 the quadratic is positive outside its roots, zero at the entry root and not positive between them. |
| Swept.EntryExitRoots | src/physics/Physics2D.hpp:519-522 | When the two root formulas yield numbers, they are the ordered roots of the quadratic. |
| Swept.EntryExitComplete | src/physics/Physics2D.hpp:519-522 | The root formulas fail (NaN) only when the quadratic has no real root or a = 0. |
| Swept.EntryBetween | src/physics/Physics2D.hpp:519-524 | A quadratic that is positive at 0 and not positive at some s ≥ 0 has its entry root in [0, s]. |
| Swept.GapQuad | src/physics/Physics2D.hpp:510-517 | The circle quadratic at s equals ‖gap(s)‖² − (r1 + r2)². |
| Swept.GapStill | src/physics/Physics2D.hpp:513-515 | Bodies with equal velocities keep their initial gap. |
| Swept.CircleCircleContact | src/physics/Physics2D.hpp:508-529 | A reported circle–circle contact is at a time t1 ≥ 0 where the centres are exactly r1 + r2 apart, and the circles are apart at every earlier time from 0 on. |
| Swept.CircleCircleOverlapping | src/physics/Physics2D.hpp:508-529 | Circles that already overlap at time 0 never report a contact. |
| Swept.CircleCircleComplete | src/physics/Physics2D.hpp:508-529 | No missed contact: circles apart at 0 that touch by some s ≥ 0 report a contact no later than s. |
| Swept.GapSwap | src/physics/Physics2D.hpp:513-514 | Seen from the other body the gap is reversed. |
| Swept.CircleCircleSymmetric | src/physics/Physics2D.hpp:508-529 | Swapping the circles gives the same time with the opposite normal. |
| Swept.AxisPolyFacts | src/physics/Physics2D.hpp:539-545 | The axis coefficients are those of (dp + t·dv)² − w², with a non-negative leading coefficient. |
| Swept.AxisTimesRoots | src/physics/Physics2D.hpp:543-550 | Along one axis the boxes overlap exactly between the entry and exit times and touch at both; the axis reports only when its relative speed is non-zero. |
| Swept.AxisTimesComplete | src/physics/Physics2D.hpp:543-550 | A moving axis whose squared distance is below w² at some s reports an interval containing s. |
| Swept.CombineChoice | src/physics/Physics2D.hpp:558-568 | The decision reports exactly when both axes report and the later entry is ≥ 0 and before the earlier exit; it then reports that entry with the normal of the axis entered last. |
| Swept.RectRectContact | src/physics/Physics2D.hpp:532-569 | A reported rect–rect contact is at a time ≥ 0 where the boxes meet and touch along the entering axis. Its normal is the unit axis along the relative velocity, and the boxes are apart at every earlier time. |
| Swept.RectRectComplete | src/physics/Physics2D.hpp:532-569 | No missed contact while both axes move: boxes apart at 0 that overlap at s ≥ 0 report a contact no later than s. |
| Swept.RectRectStillAxis | src/physics/Physics2D.hpp:543-568 | Zero relative velocity on either axis gives a 0/0 entry time, and no hit. |
| Swept.RectRectSymmetric | src/physics/Physics2D.hpp:532-569 | Swapping the rectangles gives the same time with the opposite normal. |
| Swept.RectRectTimeNonNeg | src/physics/Physics2D.hpp:560-567 | A reported rect–rect time is never negative. |
| Swept.CirclePointTouch | src/physics/Physics2D.hpp:572-580 | At the returned time the point lies on the moving circle, and outside it at every earlier time. |
| Swept.CirclePointIsCircleCircle | src/physics/Physics2D.hpp:571-580 | Circle–point is circle–circle against a circle of radius 0, except that it also returns negative times. |
| Swept.CornerFactor | src/physics/Physics2D.cpp:383-384 | The corner offset factor is 1 in the header revision and ½ in the .cpp revision. |
| Swept.ApplyContact | src/physics/Physics2D.hpp:524-528 | A found contact makes the hit valid with the contact's time and normal and keeps its entities and flag; none leaves the hit as it was. |
| Swept.CornerFoldNext | src/physics/Physics2D.hpp:592-601 | The corner pass over one more corner is one more corner step. |
| Swept.CornerFoldEarliest | src/physics/Physics2D.hpp:592-601 | The corner pass keeps entities and flag and never makes the time later. It ends no later than any positive corner time, and an earlier time it reports is a corner's positive time with that corner's normal. |
| Swept.CircleRect | src/physics/Physics2D.hpp:584-602 | The circle–rect solver, with the corner loops, computes the rect–rect pass for the 2r × 2r square followed by the corner pass. |
| Swept.CornerLoops | src/physics/Physics2D.hpp:592-601 | The two nested loops over ∓k·w and ∓k·h equal the corner pass over the four corners in loop order. |
| Swept.CornerAt | src/physics/Physics2D.hpp:592-593 | The corner visited at outer index i and inner index j. |
| Swept.CornerVisit | src/physics/Physics2D.hpp:594-599 | The inner loop body is one corner step. |
| Swept.CircleRectEarliest | src/physics/Physics2D.hpp:584-602 | A corner candidate replaces the edge result only if 0 < t < hit.time, so the result is never later than the edge contact or a positive corner time. An improvement is a valid hit where the circle touches a corner. |
| Swept.CircleRectValid | src/physics/Physics2D.cpp:375-393 | Started from the dispatcher's reset hit, circle–rect returns that hit unchanged or a valid hit at a time ≥ 0. |
| Swept.CornerFoldRelabel | src/physics/Physics2D.hpp:592-601 | Renaming the incoming hit's entities renames them in the result and changes nothing else. |
| Swept.CornerFoldScratch | src/physics/Physics2D.hpp:592-601 | The corner pass reads only the incoming time; normal and flag pass through unless a corner improves on it. |
| Swept.Collide | src/physics/Physics2D.hpp:464-505 | The dispatcher resets the hit to (e1, e2), invalid at INVALID_TIME, and runs the solver the shape tags pick. Rect against circle runs circle–rect swapped and negates the normal. |
| Swept.CollideFacts | src/physics/Physics2D.hpp:477-504 | The dispatcher names the pair and keeps the flag. An invalid result carries INVALID_TIME and a valid one a time ≥ 0, and unknown tags never give a valid hit. |
| Swept.CollideSymmetric | src/physics/Physics2D.hpp:484-504 | Dispatching the pair in the other order gives the same validity and time and, for a valid hit, the opposite normal. |
| Swept.CollideIgnoresScratch | src/physics/Physics2D.hpp:477-481 | The verdict does not depend on the normal and flag left in the scratch hit: validity, time and entities agree, and a valid hit has the same normal. |
| Swept.CollideValidIndependent | src/physics/Physics2D.hpp:477-481 | A valid result depends only on the scratch hit's dynamic flag. |
| Swept.CircleRectScratch | src/physics/Physics2D.hpp:584-602 | Circle–rect from an invalid hit: the result does not depend on the scratch normal and flag. |
| Swept.CircleRectRelabel | src/physics/Physics2D.hpp:584-602 | Circle–rect renames the entities of its incoming hit and changes nothing else about them. |
| Swept.Probe | src/physics/Physics2D.cpp:172-179 | The engine's scratch hit is the default hit with the given dynamic flag. |
| Swept.DispatcherSound | src/physics/Physics2D.cpp:259-297 | The dispatcher of either revision names its pair, keeps the flag, reports only times ≥ 0 and ignores the scratch hit's other fields. |
| Engine2D.VelocitiesAfter | src/physics/Physics2D.cpp:120-137 | The response changes velocities only; it keeps the set of bodies with a velocity. |
| Engine2D.VelocitiesAfterConserve | src/physics/Physics2D.cpp:120-137 | Only the participants' velocities change. Two distinct moving bodies keep total momentum and kinetic energy; against a static body with a unit normal the normal component is negated and the speed kept. |
| Engine2D.PhysicsEngine2D.constructor | src/physics/Physics2D.hpp:171 | A new engine over a registry: empty queue, empty earliest map, no events, and the revision's dispatcher, which is sound. |
| Engine2D.PhysicsEngine2D.Collision | src/physics/Physics2D.cpp:259-297 | collision(hit, e1, e2) names (e1, e2) and keeps the flag, uses zero velocity without Motion2D, and gives a valid time ≥ 0 or INVALID_TIME. |
| Engine2D.PhysicsEngine2D.Clear | src/physics/Physics2D.hpp:195-198 | clear empties the queue and the earliest map. |
| Engine2D.PhysicsEngine2D.DeleteEntity | src/physics/Physics2D.cpp:3-11 | delete_entity removes exactly the hits involving the entity, keeps the others in order and leaves m_earliest untouched. |
| Engine2D.PhysicsEngine2D.PushToHitlist | src/physics/Physics2D.cpp:240-255 | push_to_hitlist is the dedupe-on-push rule of HitQueue.Pushed; m_earliest is untouched. |
| Engine2D.PhysicsEngine2D.ShiftTimes | src/physics/Physics2D.cpp:106-107 | The rebasing loop lowers every queued time by dt and changes nothing else. |
| Engine2D.PhysicsEngine2D.Respond | src/physics/Physics2D.cpp:120-137 | The response step sets the velocities to VelocitiesAfter, conserving momentum and energy or reflecting, and moves nothing. |
| Engine2D.PhysicsEngine2D.ResolveHit | src/physics/Physics2D.cpp:111-162 | resolve_hit moves the world to the hit, applies the response and rebases the queue and map by hit.time. It marks the participants INVALID_TIME and, in the .cpp revision, fires both on_collision handlers. |
| Engine2D.PhysicsEngine2D.ShiftedQueued | src/physics/Physics2D.cpp:144-145 | Rebasing keeps every queued hit well-formed. |
| Engine2D.PhysicsEngine2D.ProbedUpTo | src/physics/Physics2D.cpp:180-185 | The moving loop reads m_earliest exactly for the other colliders with a valid prediction. |
| Engine2D.PhysicsEngine2D.ProbedComplete | src/physics/Physics2D.cpp:178-185 | Over the whole moving view, the keys read are exactly the valid-prediction partners. |
| Engine2D.PhysicsEngine2D.StepChosen | src/physics/Physics2D.cpp:180-195 | One loop iteration keeps a possible outcome and never makes the selection later or invalid. It ends no later than a qualifying candidate, and a dynamic candidate qualifies only below m_earliest[other]. |
| Engine2D.PhysicsEngine2D.ScannedChosen | src/physics/Physics2D.cpp:178-196 | A search loop keeps a possible outcome and never makes the selection later. |
| Engine2D.PhysicsEngine2D.ScannedBeats | src/physics/Physics2D.cpp:178-196 | A search loop ends no later than every qualifying candidate it visited. |
| Engine2D.PhysicsEngine2D.SelectionFacts | src/physics/Physics2D.cpp:172-196 | The search selects the default hit or a qualifying prediction, no later than any qualifying moving or static candidate. |
| Engine2D.PhysicsEngine2D.SelectHit | src/physics/Physics2D.cpp:172-196 | The search loops return Selection and only insert 0 for the m_earliest keys they read. |
| Engine2D.PhysicsEngine2D.ScanMoving | src/physics/Physics2D.cpp:178-185 | The loop over moving colliders computes the moving scan and defaults exactly the probed keys. |
| Engine2D.PhysicsEngine2D.ScanFixed | src/physics/Physics2D.cpp:188-196 | The loop over static colliders computes the static scan from its start selection. |
| Engine2D.PhysicsEngine2D.CommittedQueued | src/physics/Physics2D.cpp:200-206 | A valid selection is committed as a well-formed hit of the entity at a time ≥ 0, with a moving entity1; a static caller is swapped into entity2. |
| Engine2D.PhysicsEngine2D.OrphansMoving | src/physics/Physics2D.cpp:218-233 | Every entity a stale hit leaves without a partner is a moving collider. |
| Engine2D.PhysicsEngine2D.DropStale | src/physics/Physics2D.cpp:218-234 | The cleanup leaves exactly the surviving hits and returns the orphans, in queue order, with m_earliest unchanged. |
| Engine2D.PhysicsEngine2D.Commit | src/physics/Physics2D.cpp:200-234 | The committed hit is pushed, its time becomes m_earliest of its moving participants, and a dynamic commit drops the stale hits. The queue stays well-formed and in the future. |
| Engine2D.PhysicsEngine2D.CalculateCollision | src/physics/Physics2D.cpp:167-236 | A no-op for a destroyed entity. A live entity with no qualifying prediction changes the queue not at all and m_earliest only by the 0 defaults of the keys it read. With a qualifying prediction and no nested re-search, the committed hit is pushed, its time becomes m_earliest of its moving participants, a dynamic commit drops the stale hits and sets each orphan to INVALID_TIME. The queue stays well-formed and in the future, and no m_earliest key is lost. |
| Engine2D.PhysicsEngine2D.Cascade | src/physics/Physics2D.cpp:222-231 | Re-deriving the orphans keeps the queue well-formed and in the future and leaves every orphan in m_earliest; without nested re-searches it only sets each orphan's entry to INVALID_TIME. |
| Engine2D.PhysicsEngine2D.Reschedule | src/physics/Physics2D.cpp:222-231 | An orphan keeps an m_earliest entry and the queue stays well-formed and in the future; without a nested re-search its entry only becomes INVALID_TIME. |
| Engine2D.PhysicsEngine2D.UpdateEntity | src/physics/Physics2D.hpp:177-193 | update_entity (and add_entity) first drops every hit of the entity, then searches from that queue: a destroyed entity only loses its hits, one with no qualifying prediction only defaults the keys it read, and without nested re-searches a found hit is committed onto the pruned queue. A queued hit of the entity remains only if the entity is alive. |
| Engine2D.PhysicsEngine2D.Process | src/physics/Physics2D.cpp:72-108 | process(dt) advances simulated time by exactly dt. The resolved hits form a trace from the old queue, world and velocities: each is the earliest hit of the queue as it then stood, the world is moved to it and its response applied, and each is reported in order; with none resolved nothing but the flush happens. Each resolved time fits in the budget left before it; what is left is dt less the resolved times, not negative when dt is not. Unless cut short the loop stops only at a hit beyond the budget; then every movable body moves by the time left and every queued time is lowered by it. |
| Engine2D.PhysicsEngine2D.HandleHit | src/physics/Physics2D.cpp:87-95 | Handling a popped hit advances time by its time, moves every movable body by that time times its old velocity, sets the velocities to the response to the hit, reports it (both on_collision calls or both callbacks by revision), and keeps the queue well-formed and in the future. |
| Engine2D.PhysicsEngine2D.ConsumeDue | src/physics/Physics2D.cpp:74-95 | The loop of process resolves a trace of earliest hits from the old state, reports them in order, keeps each within the budget left before it, and stops with every queued hit beyond what is left unless cut short at maxEvents. |
| Engine2D.PhysicsEngine2D.ConsumeNext | src/physics/Physics2D.cpp:76-95 | One pass either finds the earliest hit beyond the time left and changes nothing, or resolves it as the next step of the trace and takes its time from the budget. |
| Engine2D.PhysicsEngine2D.Consume | src/physics/Physics2D.cpp:85-95 | Popping and handling the earliest hit extends the trace by it, advances time by its time and appends its report. |
| Engine2D.PhysicsEngine2D.Repredict | src/physics/Physics2D.cpp:91-94 | Searching new hits for the participants keeps the queue well-formed and in the future and reports nothing. |
| Engine2D.TraceStep | src/physics/Physics2D.cpp:74-95 | A resolution step from the trace's last stage extends the trace, its reports and its times by that hit. |
| Engine2D.TimesAt | src/physics/Physics2D.cpp:86 | The budget deductions are the resolved hits' times, in order. |
| Engine2D.Uncommitted | src/physics/Physics2D.cpp:224-230 | Marking orphans sets each to INVALID_TIME, adds their keys and keeps every other entry. |
| Engine2D.PhysicsEngine2D.RoundBounds | src/physics/Physics2D.cpp:25-52 | The bounds of earlier rounds survive a round that only lowers m_earliest, and together with its own they give the bounds of one more round. |
| Engine2D.PhysicsEngine2D.AdvanceWorld | src/physics/Physics2D.cpp:99-107 | Every movable body moves by the remaining time times its velocity, and every queued time drops by it; m_earliest is not rebased. |
| Engine2D.PhysicsEngine2D.PopEarliest | src/physics/Physics2D.cpp:77-86 | Popping takes out the earliest hit, and no remaining hit is earlier. |
| Engine2D.PhysicsEngine2D.Construct | src/physics/Physics2D.cpp:14-69 | Before the cleanup the queue `built` holds only what collision predicts for each queued pair, and every m_earliest entry is INVALID_TIME or the time of one of those hits involving that entity. The cleanup then keeps exactly the hits of `built` settled against m_earliest. m_earliest covers exactly the moving colliders with values ≤ INVALID_TIME. Each mover's entry is no later than any valid prediction for a moving pair it heads in PairsUpTo (each unordered pair once) or for it against any static collider. No pair meets its reverse. |
| Engine2D.PhysicsEngine2D.ConstructRounds | src/physics/Physics2D.cpp:25-52 | The outer loop bounds m_earliest of each mover by every valid prediction of the PairsUpTo pairs and of each mover against every static collider. It keeps every queued hit a prediction, queued in view order for a moving pair. Each committed time stays INVALID_TIME or the time of a queued prediction that involves its entity. |
| Engine2D.PhysicsEngine2D.ConstructRound | src/physics/Physics2D.cpp:26-51 | One round only lowers m_earliest. It bounds its mover's entry by the valid prediction against every later mover (the counter offset) and every static collider. Each committed time stays INVALID_TIME or the time of a queued prediction that involves its entity. |
| Engine2D.PhysicsEngine2D.FinishBuild | src/physics/Physics2D.cpp:55-68 | After the cleanup every queued hit is settled and was queued before, m_earliest is unchanged, and no pair meets its reverse. |
| Engine2D.PhysicsEngine2D.InvalidateAll | src/physics/Physics2D.cpp:22-23 | Every moving collider starts at INVALID_TIME. |
| Engine2D.PhysicsEngine2D.ConstructDynamic | src/physics/Physics2D.cpp:29-37 | The inner loop only lowers m_earliest and leaves its mover's entry no later than the valid prediction against each later moving collider. Each committed time stays INVALID_TIME or the time of a queued prediction that involves its entity. |
| Engine2D.PhysicsEngine2D.ConstructStatic | src/physics/Physics2D.cpp:40-48 | The static loop only lowers m_earliest and leaves the mover's entry no later than the valid prediction against each static collider. Each committed time stays INVALID_TIME or the time of a queued prediction that involves its entity. |
| Engine2D.PhysicsEngine2D.ConstructPair | src/physics/Physics2D.cpp:31-36 | One pass of either inner loop only lowers m_earliest and leaves the mover's entry no later than the valid prediction for the pair. Each committed time stays INVALID_TIME or the time of a queued prediction that involves its entity. |
| Engine2D.PhysicsEngine2D.PushAndLower | src/physics/Physics2D.cpp:32-35 | A queued hit is appended to the queue, since while building it never meets its reverse. It lowers m_earliest of its participants with min, entity2 only for a dynamic hit, so its mover's entry ends no later than the hit. Each committed time stays INVALID_TIME or the time of a queued prediction that involves its entity. |
| Engine2D.PhysicsEngine2D.NoReverseQueued | src/physics/Physics2D.cpp:29-46 | While construct builds, a hit about to be queued has no reverse in the queue: moving pairs are queued in view order only, and a static collider never heads a hit. |
| Engine2D.PhysicsEngine2D.ReachedLowered | src/physics/Physics2D.cpp:32-35 | Lowering the participants' committed times to a hit that is then queued keeps every committed time INVALID_TIME or a queued hit's time, and only lowers. |
| Engine2D.PhysicsEngine2D.Cleanup | src/physics/Physics2D.cpp:55-68 | The cleanup loop keeps exactly the settled hits, in order. |
| DiscretePhysics.IntersectsShared | src/physics/Physics.hpp:129-133 | intersects is symmetric. Intersecting boxes share an interior point, and proper boxes sharing one intersect. |
| DiscretePhysics.ZeroTimeLinear | src/physics/Physics.hpp:137-138 | Without acceleration, t = −x/vel closes the gap when vel ≠ 0. |
| DiscretePhysics.ZeroTimeNearest | src/physics/Physics.hpp:139-147 | With acceleration, the time found closes the gap, and no other closing time is nearer to zero. |
| DiscretePhysics.RootsAre | src/physics/Physics.hpp:140-145 | With a ≠ 0, the roots of the quadratic are the two that the formula gives. |
| DiscretePhysics.ZeroTimeStill | src/physics/Physics.hpp:137-147 | The zero time is +∞ exactly when there is no motion along the axis and the gap is negative, −∞ when it is positive, and NaN exactly for a closed gap without motion or a negative discriminant. |
| DiscretePhysics.ZeroTimeComplete | src/physics/Physics.hpp:139-147 | With acceleration, whenever some time closes the gap a time is found. |
| DiscretePhysics.ReflectAxis | src/physics/Physics.hpp:111-123 | About an axis normal the reflection negates that component and keeps the others; a zero normal keeps the velocity. |
| DiscretePhysics.ContactFacts | src/physics/Physics.hpp:91-116 | The contact time is the later of the two axes' earlier zero times (`txmin`, `tymin`, infinities included), and its normal is an axis normal on the axis met last. A NaN `txmin` admits no contact, and with a NaN `tymin` the contact is on x. |
| DiscretePhysics.ContactFound | src/physics/Physics.hpp:106-118 | A contact exists exactly when the time the comparison `txmin < tymin` picks is a real number. |
| DiscretePhysics.NaNPassedOver | src/physics/Physics.hpp:107-116 | A NaN second zero time on x is passed over by std::min: on a concrete pair the right edge's gap has no real root and the contact is still found on y at −0.5 with normal (0, −1). |
| DiscretePhysics.StillAxisDefers | src/physics/Physics.hpp:91-116 | For an overlapping pair with no relative motion along x and an unaccelerated motion along y, the x axis's earlier zero time is −∞, so the contact is y's earlier zero time with the y normal. |
| DiscretePhysics.MinTime | src/physics/Physics.hpp:107-108 | `std::min` on times: the result is one of the two, neither is before it, and the first is kept unless the second is strictly before it. A NaN first argument gives NaN and a NaN second argument is passed over. |
| DiscretePhysics.SignOfDiff | src/physics/Physics.hpp:109-115 | `glm::sign(b − a)` with infinities and NaN: positive exactly when a is before b, negative exactly when b is before a, and 0 when either is NaN. |
| DiscretePhysics.ReboundUnaccelerated | src/physics/Physics.hpp:122-124 | Without acceleration the rebound is the plain reflection, whatever the contact time. |
| DiscretePhysics.WorldBoxes | src/physics/Physics.hpp:39-48 | Every entity with a transform and a box has its get_lrbt world box. |
| DiscretePhysics.PairCallsFacts | src/physics/Physics.hpp:57-71 | resolve_collisions(main, other) is a no-op for main == other. Otherwise it fires both callbacks, each with itself first, exactly when the boxes intersect. |
| DiscretePhysics.SweepApart | src/physics/Physics.hpp:43-45 | resolve_collisions(main) never pairs an entity with itself. |
| DiscretePhysics.SweepFacts | src/physics/Physics.hpp:38-55 | resolve_collisions(main) answers every call (x, y) with (y, x), and reaches exactly the visited entities other than main whose boxes overlap it. |
| DiscretePhysics.RoundsApart | src/physics/Physics.hpp:32-36 | resolve_collisions() never pairs an entity with itself. |
| DiscretePhysics.RoundsCover | src/physics/Physics.hpp:32-36 | Each moving body's callback hears of every other body its box overlaps. |
| DiscretePhysics.SweepReaches | src/physics/Physics.hpp:42-53 | A full sweep of main reaches every other body whose box overlaps main's. |
| DiscretePhysics.Advance | src/physics/Physics.hpp:21-27 | Only the moved entities' velocities advance by dt·a; the keys are kept. |
| DiscretePhysics.Carried | src/physics/Physics.hpp:21-27 | Only the moved entities' transforms shift by update(dt); the keys are kept. |
| DiscretePhysics.World.constructor | src/physics/Physics.hpp:15-17 | An empty world with no callback calls. |
| DiscretePhysics.World.Movers | src/physics/Physics.hpp:22 | view<Transform, Motion> holds exactly the live entities with both components. |
| DiscretePhysics.World.Touchables | src/physics/Physics.hpp:42 | view<Transform, Boundingbox2D> holds exactly the live entities with both components. |
| DiscretePhysics.World.Colliders | src/physics/Physics.hpp:33 | view<Motion, Transform, Boundingbox2D> holds exactly the live entities with all three components. |
| DiscretePhysics.World.Moving | src/physics/Physics.hpp:22-27 | The moved set is exactly the live entities with a transform and a Motion. |
| DiscretePhysics.World.ResolvePair | src/physics/Physics.hpp:57-71 | The method appends exactly PairCalls to the callback log. |
| DiscretePhysics.World.ResolveFrom | src/physics/Physics.hpp:38-55 | The method appends exactly the sweep of main over the box view. |
| DiscretePhysics.World.SweepStep | src/physics/Physics.hpp:43-54 | One pass of the loop, with main's box computed before it, appends exactly PairCalls to the callback log. |
| DiscretePhysics.World.ResolveAll | src/physics/Physics.hpp:32-36 | The method appends exactly the rounds of every collider over the box view. |
| DiscretePhysics.World.ResolveMotion | src/physics/Physics.hpp:21-27 | resolve_motion moves and accelerates exactly the bodies with a transform and a Motion, and keeps accelerations and every other transform. |
| DiscretePhysics.World.MoveAll | src/physics/Physics.hpp:23-26 | The loop moves and accelerates exactly the entities of its view. |
| DiscretePhysics.World.MoveOne | src/physics/Physics.hpp:24-25 | One entity moves by its update(dt) shift and its velocity advances; nothing else changes. |
| DiscretePhysics.World.ResolveReflection | src/physics/Physics.hpp:75-125 | With no contact or one ahead (t > 0) nothing changes. Otherwise a runs back to the contact, is reflected about the axis normal and runs forward by −t; nothing else moves. |
| DiscretePhysics.World.Rebound | src/physics/Physics.hpp:122-124 | The three final lines: back to t, reflect, forward by −t, only for a. |
| MotionComponent.Unaccelerated | src/physics/Motion.hpp:18-22 | With zero acceleration the velocity stays and the shift is dt·v. |
| MotionComponent.StepZero | src/physics/Motion.hpp:18-22 | update(0) shifts nothing and changes nothing. |
| MotionComponent.StepsCompose | src/physics/Motion.hpp:18-22 | update(d1) then update(d2) give the same total shift and final velocity as update(d1 + d2). |
| MotionComponent.Motion.constructor | src/physics/Motion.hpp:11-13 | Motion(v, a) stores both vectors. |
| MotionComponent.Motion.Planar | src/physics/Motion.hpp:14-16 | The vec2 constructor sets z = 0 in velocity and acceleration. |
| MotionComponent.Motion.Update | src/physics/Motion.hpp:18-22 | update(dt) returns dt·v + ½dt²·a and sets v to v + dt·a; the acceleration is kept. |
| Boundingbox2DComponent.FromTag | src/physics/BoundingBox2D.hpp:34-43 | The tag is stored; the unit square for Rect2D, the unit circle at 0 for Circle; an invalid_argument error for any other tag. |
| Boundingbox2DComponent.CircleShape | src/physics/BoundingBox2D.hpp:44-45 | The vec2 constructors make a Circle with the given origin and radius (1 by default). |
| Boundingbox2DComponent.RectShape | src/physics/BoundingBox2D.hpp:46 | The four-float constructor makes a Rect2D with those edges. |
| Boundingbox2DComponent.RawLrbtEncloses | src/physics/BoundingBox2D.hpp:71-81 | get_raw_lrbt is a rectangle's own box and, for a circle, (x−r, x+r, y−r, y+r), which holds every point of the disk; an unknown tag gives zero. |
| Boundingbox2DComponent.LrbtOrdered | src/physics/BoundingBox2D.hpp:82-89 | With positive scale, get_lrbt keeps left ≤ right and bottom ≤ top. |
| Boundingbox2DComponent.LrbtImage | src/physics/BoundingBox2D.hpp:82-89 | With positive scale, every point of the raw box lands in the world box. |
| BoxGeometry.NoHit | src/renderer/physics/BoundingBox2D.hpp:13-17 | The default HitResult: no hit, parameter 0, position 0, identity matrix. |
| BoxGeometry.Reflection | src/renderer/physics/BoundingBox2D.hpp:23-32 | The matrix s sᵀ − n nᵀ is symmetric: its two off-diagonal entries are equal. |
| BoxGeometry.ReflectionIsMirror | src/renderer/physics/BoundingBox2D.hpp:23-32 | For unit n the matrix sends n to −n, fixes s = (n.y, −n.x), and is the mirror v − 2(n·v)n. |
| BoxGeometry.ReflectionApply | src/renderer/physics/BoundingBox2D.hpp:23-32 | Applying the matrix to w gives the mirror image of w. |
| BoxGeometry.MirrorRowX | src/renderer/physics/BoundingBox2D.hpp:26-31 | The first row of the matrix, applied to a vector, agrees with the mirror formula for a unit n. |
| BoxGeometry.MirrorRowY | src/renderer/physics/BoundingBox2D.hpp:26-31 | The second row of the matrix agrees with the mirror formula for a unit n. |
| BoxGeometry.InternalCollision | src/renderer/physics/BoundingBox2D.cpp:185-195 | An origin beyond no side, inside the closed box, hits at parameter 0 where it stands. |
| BoxGeometry.CornerRoot | src/renderer/physics/BoundingBox2D.cpp:226-252 | The corner root is taken only when the discriminant is ≥ 0, a > epsilon and b < 0, and it is then the smaller root. |
| BoxGeometry.CornerCollision | src/renderer/physics/BoundingBox2D.cpp:226-252 | A corner hit lies on the ray at the smaller root of ‖origin + t·dir − corner‖ = radius. |
| BoxGeometry.CornerCollisionTouch | src/renderer/physics/BoundingBox2D.cpp:226-252 | A reported corner hit is at distance radius from the corner, and the ray is farther away at every earlier parameter. |
| BoxGeometry.GapAt | src/renderer/physics/BoundingBox2D.cpp:230-240 | The corner test's gap is the ray point minus the corner. |
| BoxGeometry.BoundingBox2D.constructor | src/renderer/physics/BoundingBox2D.hpp:44 | The default box has all four edges at 0. |
| BoxGeometry.BoundingBox2D.FromEdges | src/renderer/physics/BoundingBox2D.hpp:45 | The four-float constructor stores the edges. |
| BoxGeometry.BoundingBox2D.FromCorner | src/renderer/physics/BoundingBox2D.hpp:46-48 | BoundingBox2D(position, size) has its lower-left corner at position, right − left = size.x and top − bottom = size.y. |
| BoxGeometry.BoundingBox2D.TranslateBy | src/renderer/physics/BoundingBox2D.cpp:5-10 | translate_by adds v.x to left and right and v.y to bottom and top. |
| BoxGeometry.BoundingBox2D.TranslateCenterTo | src/renderer/physics/BoundingBox2D.cpp:12-18 | translate_center_to keeps width and height and puts the centre at p. |
| BoxGeometry.BoundingBox2D.TranslateLbTo | src/renderer/physics/BoundingBox2D.cpp:19-24 | translate_lb_to keeps width and height and moves (left, bottom) to p. |
| BoxGeometry.BoundingBox2D.Distance | src/renderer/physics/BoundingBox2D.cpp:41-63 | distance is 0 on an axis where the point is within the box's extent, and edge − point for the nearer crossed edge otherwise. For a proper box, point + distance lies in the box. |
| BoxGeometry.BoundingBox2D.SidesOf | src/renderer/physics/BoundingBox2D.cpp:65-70 | The flags say which sides the origin lies strictly beyond. |
| BoxGeometry.BoundingBox2D.LineCollision | src/renderer/physics/BoundingBox2D.cpp:197-224 | line_collision reports only a point on the crossed edge line, strictly between the perpendicular bounds, with an axis-aligned normal. |
| BoxGeometry.BoundingBox2D.HorizontalCollision | src/renderer/physics/BoundingBox2D.cpp:203-212 | A horizontal-edge hit lies on y = edge.y, strictly between left and right. |
| BoxGeometry.BoundingBox2D.VerticalCollision | src/renderer/physics/BoundingBox2D.cpp:214-222 | A vertical-edge hit lies on x = edge.x, strictly between bottom and top. |
| BoxGeometry.BoundingBox2D.PointCollision | src/renderer/physics/BoundingBox2D.cpp:65-90 | A point hit lies on the ray at its parameter. An origin in the closed box hits at 0; otherwise it is the line test's hit or the default HitResult. |
| BoxGeometry.BoundingBox2D.EdgeOfProper | src/renderer/physics/BoundingBox2D.cpp:65-75 | For a proper box, at most one side per axis is crossed, and Edge picks it. |
| BoxGeometry.BoundingBox2D.PointCollisionOnEdge | src/renderer/physics/BoundingBox2D.cpp:65-90 | A point hit from outside a proper box lies on one of its edges. |
| BoxGeometry.BoundingBox2D.CircleCollision | src/renderer/physics/BoundingBox2D.cpp:92-135 | The circle hit is the line test against edges pushed out by the radius, then the corner test; it is the default HitResult when neither hits. |
| BoxGeometry.BoundingBox2D.CircleCollisionPlace | src/renderer/physics/BoundingBox2D.cpp:92-135 | A circle hit from outside is on a pushed edge line, or at distance radius from the corner, reached there for the first time. |
| BoxGeometry.BoundingBox2D.PushedEdge | src/renderer/physics/BoundingBox2D.cpp:100-110 | The pushed edge lines lie radius outside the crossed sides of a proper box. |
| BoxGeometry.BoundingBox2D.EllipseCollision | src/renderer/physics/BoundingBox2D.cpp:137-181 | The axis-scaled circle hit pushes the edges by radius.x and radius.y, and runs the corner test in the space scaled by radius.y/radius.x along x. It is defined for every radius: an origin in the closed box hits at parameter 0, a miss is the empty result, and a hit lies on the ray or, for a corner hit with a non-zero radius, on the scaled ray. A zero radius component makes the scale NaN or infinite, so the corner test misses. |
| BoxGeometry.BoundingBox2D.EllipseCornerOnEllipse | src/renderer/physics/BoundingBox2D.cpp:137-181 | When the line test misses, a hit has non-zero radius components and lies, in box space, on the ellipse with semi-axes radius.x and radius.y around the corner. |
| BoxGeometry.Crossing | src/renderer/physics/BoundingBox2D.cpp:203-216 | A moving coordinate reaches the edge at the returned parameter. |
| BoxGeometry.Toward | src/renderer/physics/BoundingBox2D.cpp:207-219 | The normal component b_hi − b_lo is ±1 when exactly one side is crossed, and 0 otherwise. |
| BoxGeometry.AxisMirrors | src/renderer/physics/BoundingBox2D.cpp:209-221 | The axis normals give the mirrors across the x and the y axis. |
| BoxGeometry.ScaledCorner | src/renderer/physics/BoundingBox2D.cpp:170-180 | A corner hit in scaled space lies on the ellipse in box space. |
| BoxGeometry.ScaledRay | src/renderer/physics/BoundingBox2D.cpp:175 | Scaling the ray scales every point of it. |
| BoxGeometry.EllipseUnit | src/renderer/physics/BoundingBox2D.cpp:170-175 | A distance of radius.y in scaled space is the ellipse equation in box space. |
| BoxGeometry.CollidesIffCommonPoint | src/renderer/physics/BoundingBox2D.cpp:31-39 | collides(box) is strict overlap and symmetric; boxes with interiors overlap exactly when some point is strictly inside both. |
| BufferLayout.Length | src/opengl/GLBufferLayout.hpp:35-51 | gltype_length gives the component count: 1 for Bool, Int and Float, up to 16 for Mat4. |
| BufferLayout.ByteSize | src/opengl/GLBufferLayout.hpp:17-33 | The byte size is 4 × the component count for every type except Bool, which takes 1. |
| BufferLayout.NativeType | src/opengl/GLBufferLayout.hpp:53-69 | gl_native_type maps Bool to GL_BOOL, the Int types to GL_INT and the Float and Mat types to GL_FLOAT. |
| BufferLayout.NewElement | src/opengl/GLBufferLayout.hpp:79-83 | A new element has offset 0, the type's byte size, and normalize false by default. |
| BufferLayout.SizeSumSnoc | src/opengl/GLBufferLayout.hpp:111-118 | Adding an element at the end adds its size to the total. |
| BufferLayout.SizeSumMonotone | src/opengl/GLBufferLayout.hpp:111-116 | A longer prefix never has a smaller total size. |
| BufferLayout.Placed | src/opengl/GLBufferLayout.hpp:111-118 | Placing keeps names, types and sizes; element i's offset is the total size of elements 0..i−1. |
| BufferLayout.PlacedShape | src/opengl/GLBufferLayout.hpp:111-118 | In a placed layout, offsets never decrease, and the stride is the last offset plus the last size. |
| BufferLayout.Layout.constructor | src/opengl/GLBufferLayout.hpp:92-95 | The default layout has no elements and stride 0. |
| BufferLayout.Layout.FromElements | src/opengl/GLBufferLayout.hpp:97-101 | A layout built from elements holds them placed, with the total size as stride. |
| BufferLayout.Layout.CalculateOffsetsAndStride | src/opengl/GLBufferLayout.hpp:111-118 | Every offset becomes the total size of the earlier elements, and the stride the total size of all of them. |
| BufferLayout.Plain | src/opengl/GLBufferLayout.hpp:124-126 | Plain is one Float3 at offset 0 with stride 12. |
| BufferLayout.Normal | src/opengl/GLBufferLayout.hpp:128-131 | Normal has offsets 0 and 12 and stride 24. |
| BufferLayout.NormalUV | src/opengl/GLBufferLayout.hpp:133-137 | NormalUV has offsets 0, 12 and 24 and stride 32. |
| Shader.KindOfExt | src/opengl/GLShader.cpp:32-39 | A path ending in vert, frag or geom is of that kind, whatever precedes the ending. |
| Shader.KindOfSplits | src/opengl/GLShader.cpp:32-43 | A recognised path is its stem followed by its kind's ending; any other ending is rejected. |
| Shader.OfKind | src/opengl/GLShader.cpp:25-46 | The accepted paths of a kind, in the order given; every one of them opens and has that kind. |
| Shader.OfKindStep | src/opengl/GLShader.cpp:34-39 | One more path goes to the list of its kind only. |
| Shader.CompileSingle | src/opengl/GLShader.cpp:48-59 | _compile_single succeeds exactly when every path compiles, and stops at the first path that fails. |
| Shader.Witness | src/opengl/GLShader.cpp:48-59 | A path that does not compile makes the whole list fail. |
| Shader.GLShader.constructor | src/opengl/GLShader.hpp:32-37 | An empty shader: no sources, no program and no texture slots. |
| Shader.GLShader.FromPaths | src/opengl/GLShader.cpp:12-18 | GLShader(paths) sorts every accepted path into the list of its kind in the order given, then compiles. |
| Shader.GLShader.AddSources | src/opengl/GLShader.cpp:14-15 | The constructor's loop sorts every accepted path into the list of its kind, in the order given, starting from empty lists. |
| Shader.GLShader.AddSource | src/opengl/GLShader.cpp:25-46 | A path that opens and ends in vert, frag or geom is appended to that list and the call succeeds. An unopenable file or any other ending fails with every list unchanged. |
| Shader.GLShader.Compile | src/opengl/GLShader.cpp:61-77 | The program gets its id only when every source compiles, and compile returns false on every path, success included. |
| Shader.GLShader.Bind | src/opengl/GLShader.cpp:93-97 | bind empties the name-to-slot map and resets the counter to 0. |
| Shader.GLShader.SetTextureUniform | src/opengl/GLShader.cpp:169-185 | A known name reuses its slot and keeps the counter. A new name gets the counter's value and the counter increments; the call fails past m_max_slots with the map and counter already updated. |
| Renderer2D.Flatten | src/renderer/Renderer2D.cpp:108-139 | The uploads, one after the other; no uploads give nothing. |
| Renderer2D.FlattenSnoc | src/renderer/Renderer2D.cpp:108-139 | One more upload appends exactly its entries. |
| Renderer2D.Renderer2D.constructor | src/renderer/Renderer2D.cpp:8-61 | init allocates both buffers with max_vertices entries, both empty. |
| Renderer2D.Renderer2D.RenderQuads | src/renderer/Renderer2D.cpp:125-139 | render_quads does nothing on an empty batch; otherwise it uploads exactly entries [0, quad_index) and resets the index. |
| Renderer2D.Renderer2D.RenderCircles | src/renderer/Renderer2D.cpp:108-123 | render_circles does the same for the circle buffer. |
| Renderer2D.Renderer2D.DrawQuad | src/renderer/Renderer2D.cpp:81-88 | draw_quad flushes exactly when the buffer is full, keeps 0 ≤ quad_index ≤ max_vertices, and puts the vertex at quad_index − 1. |
| Renderer2D.Renderer2D.DrawCircle | src/renderer/Renderer2D.cpp:90-97 | draw_circle keeps the same bound and appends its circle at circle_index − 1. |
| Renderer2D.Renderer2D.End | src/renderer/Renderer2D.cpp:99-106 | end flushes both batches: both indices are 0, and the uploads spell out every draw call in order. |
| EntityRenderer2D.Origin | src/renderer/renderer/Renderer2D.cpp:139 | The quad's corner is its position less half its size. |
| EntityRenderer2D.Corners | src/renderer/renderer/Renderer2D.cpp:139-150 | The six vertices p, p+(w,0), p+(0,h), p+(w,h), p+(w,0), p+(0,h) of the two triangles. |
| EntityRenderer2D.CornersCentred | src/renderer/renderer/Renderer2D.cpp:139-150 | Both diagonals of the quad meet at its position, its sides are w and h, the two shared vertices repeat, and z is kept. |
| EntityRenderer2D.AllCorners | src/renderer/renderer/Renderer2D.cpp:137-152 | The quad loop writes six vertices per quad. |
| EntityRenderer2D.AllCornersStep | src/renderer/renderer/Renderer2D.cpp:137-152 | One more quad appends its six corners. |
| EntityRenderer2D.AllCornersAt | src/renderer/renderer/Renderer2D.cpp:137-152 | Quad k owns exactly slots [6k, 6k + 6) of the vertex stream. |
| EntityRenderer2D.Discs | src/renderer/renderer/Renderer2D.cpp:117-122 | One disc per circle entity, with its position and radius, in order. |
| EntityRenderer2D.EntityRenderer2D.constructor | src/renderer/renderer/Renderer2D.cpp:10-58 | init allocates both buffers with max_vertices entries, both empty. |
| EntityRenderer2D.EntityRenderer2D.RenderQuads | src/renderer/renderer/Renderer2D.cpp:171-178 | render_quads does nothing when empty; otherwise it uploads the pending vertices and resets the index to 0. |
| EntityRenderer2D.EntityRenderer2D.RenderCircles | src/renderer/renderer/Renderer2D.cpp:162-169 | render_circles does nothing when empty; otherwise it uploads the pending circles and resets the index to 0. |
| EntityRenderer2D.EntityRenderer2D.PushCircle | src/renderer/renderer/Renderer2D.cpp:117-126 | A circle is written at circle_index, and the buffer is flushed when the index reaches max_vertices. |
| EntityRenderer2D.EntityRenderer2D.PushQuad | src/renderer/renderer/Renderer2D.cpp:139-152 | The buffer is flushed first when quad_index + 6 > max_vertices. The quad then fills exactly slots [quad_index, quad_index + 6), which advances by 6 and stays within the buffer. |
| EntityRenderer2D.EntityRenderer2D.WriteCorners | src/renderer/renderer/Renderer2D.cpp:144-150 | The six writes put the quad's corners in their slots and leave the earlier slots alone. |
| EntityRenderer2D.EntityRenderer2D.RenderCircleEntities | src/renderer/renderer/Renderer2D.cpp:117-127 | The circle loop and its final flush upload one disc per circle entity, in order. |
| EntityRenderer2D.EntityRenderer2D.RenderQuadEntities | src/renderer/renderer/Renderer2D.cpp:137-154 | The quad loop and its final flush upload six corners per quad entity, in order. |
| EntityRenderer2D.EntityRenderer2D.Render | src/renderer/renderer/Renderer2D.cpp:102-155 | render leaves both buffers empty, and the uploads spell out every circle and then every quad's six corners. |
| TextureAtlas.Trunc | src/renderer/TextureAtlas.hpp:45 | float-to-int conversion drops the fraction toward zero. |
| TextureAtlas.NatQuot | src/renderer/TextureAtlas.hpp:60 | The quotient of non-negative ints counts how often the divisor fits: q·b ≤ a < q·b + b. |
| TextureAtlas.Quot | src/renderer/TextureAtlas.hpp:60 | int division truncates toward zero: the magnitude is the quotient of the magnitudes, negative only for operands of opposite sign. |
| TextureAtlas.UvOf | src/renderer/TextureAtlas.hpp:40 | The uv size times the image size is the pixel size. |
| TextureAtlas.PxOf | src/renderer/TextureAtlas.hpp:45 | The pixel size is the uv size times the image size, truncated. |
| TextureAtlas.PixelRoundTrip | src/renderer/TextureAtlas.hpp:38-46 | In real arithmetic, a pixel size turned into a uv size and back is the same pixel size. |
| TextureAtlas.UvRoundTrip | src/renderer/TextureAtlas.hpp:38-46 | In real arithmetic, a non-negative uv size turned into pixels and back never grows, and loses less than one pixel. |
| TextureAtlas.RegularTextureAtlas.constructor | src/renderer/TextureAtlas.hpp:31-36 | A new atlas has zero image size and zero cell sizes. |
| TextureAtlas.RegularTextureAtlas.Load | src/renderer/TextureAtlas.hpp:21-27 | load stores the image's width and height as the atlas size. |
| TextureAtlas.RegularTextureAtlas.SetElementPixelSize | src/renderer/TextureAtlas.hpp:38-41 | The pixel size is stored, and the uv size is px / size componentwise, which in real arithmetic truncates back to px. |
| TextureAtlas.RegularTextureAtlas.SetElementUvSize | src/renderer/TextureAtlas.hpp:43-46 | The uv size is stored, and the pixel size is trunc(uv · size). |
| TextureAtlas.RegularTextureAtlas.GetUv | src/renderer/TextureAtlas.hpp:49-56 | get_uv(x, y) starts at (x·u, y·v) and spans exactly the uv cell size. |
| TextureAtlas.RegularTextureAtlas.GetIndexSize | src/renderer/TextureAtlas.hpp:60 | get_index_size counts the whole cells: n·px ≤ size < n·px + px on each axis. |
| TextureAtlas.RegularTextureAtlas.CellsAdjacent | src/renderer/TextureAtlas.hpp:49-56 | Neighbouring cells share their edges. |
| TextureAtlas.RegularTextureAtlas.CellsInside | src/renderer/TextureAtlas.hpp:38-60 | With the size set in pixels, every cell that get_index_size counts ends at or before uv 1. |
| Voxel.Coords | src/renderer/VoxelRenderer.hpp:15-16 | Every index of the chunk names a cell in [0, 16)³. |
| Voxel.IndexCoords | src/renderer/VoxelRenderer.hpp:25-29 | L·(L·z + y) + x is in [0, SIZE) for a cell, and leads back to the cell. |
| Voxel.CoordsIndex | src/renderer/VoxelRenderer.hpp:25-29 | Every index below SIZE is the index of its own cell, so the layout is a bijection. |
| Voxel.SameLayout | src/renderer/VoxelRenderer.hpp:66 | The vertex grid's x + L·(y + L·z) is sample_data's layout. |
| Voxel.Sample | src/renderer/VoxelRenderer.hpp:28-30 | A cell's value is 0 or 1, 0 for y ≥ 9, and 1 exactly when all three distance products exceed 3 below y = 9. |
| Voxel.BitProduct | src/renderer/VoxelRenderer.hpp:30 | A product of comparisons is 1 exactly when all of them hold. |
| Voxel.SampleData | src/renderer/VoxelRenderer.hpp:23-35 | sample_data writes every index of the chunk with its own cell's value. |
| Voxel.VertexGrid | src/renderer/VoxelRenderer.cpp:25-30 | vertices[k] = (k mod 16, (k div 16) mod 16, k div 256) for every k < SIZE, each coordinate in [0, 16). |
| Voxel.UvLut | src/renderer/VoxelRenderer.cpp:61-64 | All 1536 entries are written: lut[6i + side] = i and lut[k] = k div 6. |

## Left out

- OpenGL, GLFW and ImGui calls, file I/O and stb_image are left out: shader compilation and linking, uniform locations, texture upload and buffer upload. Whether a file opens and whether a source compiles are inputs. The program id is a parameter, and an upload is an entry in a list of batches.
- The entt registry is maps plus a sequence of live entities. Its iteration order is that sequence.
- `on_collision` and `collision_callback` are event logs. Game code run by a callback (which may destroy entities) is not modelled.
- `sqrtf` is a parameter that is assumed to be a square root; floating-point rounding, NaN and infinities are not modelled beyond mapping NaN cases to "no hit", except for the discrete system's zero times, where NaN and the infinities are values.
- The heap order of `m_hitlist` is not modelled. The mid-vector erases in the source break it, and the model pops the earliest hit instead.
- `HitData::copy_from` is plain value assignment of the `HitData` datatype.
- `Engine2D.PhysicsEngine2D.CalculateCollision`: the invalidation cascade stops after `cascadeLimit` nested levels, where the source recurses without a bound.
- `Engine2D.PhysicsEngine2D.Process`: resolves at most `maxEvents` hits per call, where the source loops until no hit is within the budget.
- `Engine2D.PhysicsEngine2D.CalculateCollision`: when a dynamic commit leaves orphans and `fuel` is above 0, the queue and `m_earliest` after the nested searches are not stated beyond well-formedness, the hits being in the future, and no key being lost. The search with no hit and the commit without nested searches are stated.
- `Engine2D.PhysicsEngine2D.Cascade`: with `fuel` above 0 only well-formedness, the hits being in the future, and every orphan keeping an `m_earliest` entry are stated, not what the nested searches queue.
- `Engine2D.PhysicsEngine2D.UpdateEntity`: with `cascadeLimit` above 0 and a found hit, the state after the nested searches is not stated, as for `CalculateCollision`.
- `Engine2D.PhysicsEngine2D.Repredict`: states only that the participants' new searches keep the queue well-formed and in the future and report nothing. Two chained searches are not composed; one search is stated by `CalculateCollision`.
- `Engine2D.PhysicsEngine2D.HandleHit`: the hits queued by the re-search after the response are not stated, for the reason given for `Repredict`.
- `Engine2D.PhysicsEngine2D.Construct`: states upper bounds on `m_earliest`, and that each entry is `INVALID_TIME` or the time of a predicted hit involving its entity. It does not state that an entry equals the least prediction involving its mover. A pair's second mover is lowered only when the hit also beats the first mover's entry, as in the source, so that equality does not hold in general.
- `Engine2D.PhysicsEngine2D.Reschedule`: with `fuel` above 0 only well-formedness, the hits being in the future, and the orphan keeping its `m_earliest` entry are stated, as for `Cascade`.
- `Engine2D.PhysicsEngine2D.Cleanup`: requires every participant of a queued hit to be in `m_earliest` (as `construct` guarantees), so the default insertion of `operator[]` in that loop is not modelled.
- `Engine2D.PhysicsEngine2D.Respond`: a zero total mass divides by zero in the source; the model uses an inverse mass of 0 instead.
- `Shader.GLShader.SetTextureUniform`: the slot is an unbounded int; the `int8_t` wrap-around of the counter past 127 is not modelled. `m_max_slots` is a constructor parameter, because its definition is not part of this model.
- `Shader.GLShader.AddSource`: paths shorter than four characters are unrecognised; the source reads before the start of the string for them.
- `TextureAtlas.RegularTextureAtlas.SetElementPixelSize`: requires a non-zero image size; the source divides by zero otherwise (inf or NaN). Its clause that the uv size truncates back to the pixel size holds over exact reals only, for the reason given for `TextureAtlas.PixelRoundTrip`.
- `TextureAtlas.PixelRoundTrip`: holds over exact reals only. The program computes in float32, and `glm::ivec2` truncates, so one ulp below a whole number loses a whole pixel. For a 1-pixel cell in a 41-pixel image, 1.0f/41 rounds to 0.024390243f, its product with 41.0f rounds to 0.99999994f, and that truncates to 0, not 1. When the image size is a power of two the quotient is exact and the round trip holds.
- `TextureAtlas.UvRoundTrip`: holds over exact reals only. In float32, "never grows" can fail by one ulp: uv 0.93154031 in a 409-pixel image gives 381 pixels, and 381.0f/409 rounds to 0.93154037, above the uv it came from.
- `TextureAtlas.RegularTextureAtlas.GetIndexSize`: requires a non-zero cell size; the source divides by zero otherwise. The `size_t` to `int` conversion and float-to-int overflow are not modelled.
- `Voxel.Sample`: `abs(x - 7.5)` is modelled as the floating-point absolute value, which is the overload the expression selects for a double argument.
- `EntityRenderer2D.EntityRenderer2D.Render`: the quad's position and size come from the entity's components. The `Quad` component header does not match its use in the .cpp file, which is what the model follows. Likewise the circle loop reads a `Component::Radius` (src/renderer/renderer/Renderer2D.cpp:107, 119) and builds `CircleData(pos, radius)` (line 121), while src/renderer/renderer/Renderer2D.hpp:28 declares only `CircleData(Circle&, Position&)`; the model takes the position and radius as the .cpp uses them. `create_circle`, `create_quad` and `begin` create entities and set camera uniforms, and are not modelled.
- `Renderer2D` and `EntityRenderer2D`: the index buffer contents and camera uniforms are left out.
- `DiscretePhysics.World.ResolveReflection`: when the chosen contact time is not a real number, the model leaves `a` unchanged; the source then moves `a` by a non-finite amount. The chosen time is NaN exactly when the first x zero time (`x_col.x`) is NaN, from a closed gap without relative motion or a negative discriminant; NaN in the other three zero times is modelled as the source treats it. It is -∞ when neither axis moves. A chosen +∞ lies ahead and is skipped in both. A zero relative velocity is taken as +0; a -0 (from `-0 - 0`) would flip the sign of the infinities.
- `Swept.RectRectStillAxis`: the rect–rect solver's behaviour with zero relative velocity on one axis (no hit) is modelled as written, not corrected.
- The camera classes, `Transform::get_matrix`, `VoxelWorld`, `VoxelRenderer2` and the game and application glue are not part of this model.

## Findings

| source | as written | input that shows it | evidently intended | confidence | as-written member | corrected member |
|---|---|---|---|---|---|---|
| src/physics/Physics2D.cpp:219-233 | After `m_hitlist.erase(it)`, the loop reads the orphan from `*it`, which is now the following hit, and its `it++` then skips that hit. | Committing (1, 2) over the queue [(1, 2), (2, 3), (4, 2)]: the stale (4, 2) stays, and 2, the partner itself, is orphaned instead of 3 and 4. | Drop every stale hit and re-derive each entity they leave without a partner. | not executed; the erase also invalidates `it` | HitQueue.ScanAsWritten | HitQueue.Survivors |
