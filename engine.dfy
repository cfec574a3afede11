/**
 * `PhysicsEngine2D`: the continuous-time 2D collision engine. It keeps a
 * queue of predicted pairwise hits (`m_hitlist`) and, per entity, the time of
 * its committed next collision (`m_earliest`); `process(dt)` pops hits in
 * time order, moves the world to each, applies the velocity response and
 * re-predicts the participants' next hits.
 *
 * Both revisions of the engine are modelled (`revision`): the inline one in
 * the header, whose `process` reports each resolved hit to a callback per
 * entity, and the source-file one, whose `resolve_hit` fires the
 * `on_collision` handlers of both colliders. Callbacks are recorded in
 * `events` and do nothing else.
 */
module Engine2D {
  import opened Geometry
  import opened Wrappers
  import opened Physics2DComponents
  import opened Swept
  import opened Response
  import opened EntityRegistry
  import opened HitQueue

  /** A callback invocation: `on_collision(self, other)` or `collision_callback(registry, entity)`. */
  datatype Event = OnCollision(self: Entity, other: Entity) | Callback(entity: Entity)

  /**
   * The callbacks one resolved hit fires: both `on_collision` handlers from
   * `resolve_hit` (source-file revision), or `collision_callback` for each
   * entity from `process` (header revision).
   */
  function Report(rev: Revision, hit: HitData): (r: seq<Event>)
    ensures |r| == 2
  {
    if rev == SourceFile then [OnCollision(hit.entity1, hit.entity2), OnCollision(hit.entity2, hit.entity1)]
    else [Callback(hit.entity1), Callback(hit.entity2)]
  }

  /** The callbacks of a run of resolved hits, in order. */
  function Reports(rev: Revision, hs: seq<HitData>): seq<Event>
  {
    if |hs| == 0 then [] else Reports(rev, hs[..|hs| - 1]) + Report(rev, hs[|hs| - 1])
  }

  /** The engine as `process` finds it before a pop: the queue, the transforms and the velocities. */
  datatype Stage = Stage(queue: seq<HitData>, world: map<Entity, Transform>, speeds: map<Entity, Vec2>)

  /**
   * `hit` is what `process` pops from stage `s`, and stage `t` is the world
   * it leaves: the earliest queued hit, with every body moved to it and the
   * velocity response applied.
   */
  ghost predicate Resolves(s: Stage, hit: HitData, t: Stage, cs: map<Entity, Collider>)
  {
    && s.queue != [] && hit == s.queue[EarliestIndex(s.queue)]
    && hit.entity1 in s.speeds && hit.entity1 in cs
    && (hit.dynamic ==> hit.entity2 in s.speeds && hit.entity2 in cs)
    && t.world == Advanced(s.world, s.speeds, hit.time)
    && t.speeds == VelocitiesAfter(s.speeds, cs, hit)
  }

  /** Each popped hit leads from one stage to the next. */
  ghost predicate Trace(stages: seq<Stage>, popped: seq<HitData>, cs: map<Entity, Collider>)
  {
    && |stages| == |popped| + 1
    && forall i :: 0 <= i < |popped| ==> Resolves(stages[i], popped[i], stages[i + 1], cs)
  }

  /**
   * The record `process` keeps of its run so far: the stages from `first`
   * to `current`, linked by the popped hits, and the callbacks they fired
   * after the events `before`.
   */
  ghost predicate Logged(stages: seq<Stage>, popped: seq<HitData>, first: Stage, current: Stage,
                         events: seq<Event>, before: seq<Event>, cs: map<Entity, Collider>, rev: Revision)
  {
    && Trace(stages, popped, cs)
    && stages[0] == first && stages[|popped|] == current
    && events == before + Reports(rev, popped)
  }

  lemma EventsAppended(a: seq<Event>, b: seq<Event>, c: seq<Event>)
    ensures (a + b) + c == a + (b + c)
  {
  }

  /** A trace extends by one more resolved hit. */
  lemma TraceStep(stages: seq<Stage>, popped: seq<HitData>, hit: HitData, t: Stage, cs: map<Entity, Collider>)
    requires Trace(stages, popped, cs) && Resolves(stages[|popped|], hit, t, cs)
    ensures Trace(stages + [t], popped + [hit], cs)
    ensures forall rev :: Reports(rev, popped + [hit]) == Reports(rev, popped) + Report(rev, hit)
    ensures Times(popped + [hit]) == Times(popped) + [hit.time]
  {
    assert (popped + [hit])[..|popped|] == popped;
    var stages', popped' := stages + [t], popped + [hit];
    forall i | 0 <= i < |popped'| ensures Resolves(stages'[i], popped'[i], stages'[i + 1], cs) {
      if i < |popped| {
        assert stages'[i] == stages[i] && stages'[i + 1] == stages[i + 1] && popped'[i] == popped[i];
      }
    }
  }

  /** The queue after `calculate_collision` commits the hit `h`, before any cascade. */
  function CommitQueue(hs: seq<HitData>, h: HitData): seq<HitData>
  {
    if h.dynamic then Survivors(hs + [h], h) else hs + [h]
  }

  /** `m_earliest` after committing `h`: its time for the moving participants. */
  function CommitTimes(m: map<Entity, real>, h: HitData): map<Entity, real>
  {
    if h.dynamic then m[h.entity1 := h.time][h.entity2 := h.time] else m[h.entity1 := h.time]
  }

  /** The entities the commit of `h` leaves without a partner. */
  function CommitOrphans(hs: seq<HitData>, h: HitData): seq<Entity>
  {
    if h.dynamic then Orphans(hs + [h], h) else []
  }

  /** `m_earliest` with every entity of `os` marked uncommitted. */
  function Uncommitted(m: map<Entity, real>, os: seq<Entity>): (r: map<Entity, real>)
    ensures r.Keys == m.Keys + set o | o in os
    ensures forall o :: o in os ==> r[o] == InvalidTime
    ensures forall e :: e in m && e !in os ==> r[e] == m[e]
  {
    map e | e in m.Keys + (set o | o in os) :: if e in os then InvalidTime else m[e]
  }

  lemma UncommittedStep(m: map<Entity, real>, os: seq<Entity>, o: Entity)
    ensures Uncommitted(m, os + [o]) == Uncommitted(m, os)[o := InvalidTime]
  {
    var a, b := Uncommitted(m, os + [o]), Uncommitted(m, os)[o := InvalidTime];
    assert a.Keys == b.Keys;
    forall e | e in a ensures a[e] == b[e] {
      if e != o && e !in os {
        assert e !in os + [o];
      }
    }
  }

  /** The times of a run of hits. */
  function Times(hs: seq<HitData>): (r: seq<real>)
    ensures |r| == |hs|
  {
    if |hs| == 0 then [] else Times(hs[..|hs| - 1]) + [hs[|hs| - 1].time]
  }

  /** The i-th time is the i-th hit's. */
  lemma {:induction false} TimesAt(hs: seq<HitData>)
    ensures forall i :: 0 <= i < |hs| ==> Times(hs)[i] == hs[i].time
  {
    if |hs| > 0 {
      TimesAt(hs[..|hs| - 1]);
    }
  }

  /** The sum of a sequence of times. */
  function Total(s: seq<real>): real
  {
    if |s| == 0 then 0.0 else Total(s[..|s| - 1]) + s[|s| - 1]
  }

  /** Each time fits in what `dt` leaves after the times before it. */
  predicate WithinBudget(times: seq<real>, dt: real)
  {
    forall i :: 0 <= i < |times| ==> 0.0 <= times[i] <= dt - Total(times[..i])
  }

  /**
   * The budget of `process` after resolving `popped` from `dt`: each hit fit
   * in the time left before it, and `local` is what is left.
   */
  predicate Budgeted(popped: seq<HitData>, dt: real, local: real)
  {
    && local == dt - Total(Times(popped))
    && WithinBudget(Times(popped), dt)
    && (popped == [] || local >= 0.0)
    && (dt < 0.0 ==> popped == [])
  }

  /** A time that fits in what is left extends a budgeted sequence, and adds to its sum. */
  lemma BudgetStep(times: seq<real>, t: real, dt: real)
    requires WithinBudget(times, dt) && 0.0 <= t <= dt - Total(times)
    ensures WithinBudget(times + [t], dt)
    ensures Total(times + [t]) == Total(times) + t
  {
    var next := times + [t];
    assert next[..|times|] == times;
    forall i | 0 <= i < |next| ensures 0.0 <= next[i] <= dt - Total(next[..i]) {
      if i < |times| {
        assert next[..i] == times[..i];
      }
    }
  }

  /**
   * The velocities after `resolve_hit`'s response: the elastic formula for
   * two moving bodies (entity1's velocity written last), the reflection
   * about the hit normal for a body against a static one.
   */
  function VelocitiesAfter(ms: map<Entity, Vec2>, cs: map<Entity, Collider>, hit: HitData): (r: map<Entity, Vec2>)
    requires hit.entity1 in ms && hit.entity1 in cs
    requires hit.dynamic ==> hit.entity2 in ms && hit.entity2 in cs
    ensures r.Keys == ms.Keys
  {
    if hit.dynamic then
      var (w1, w2) := Elastic(cs[hit.entity1].mass, cs[hit.entity2].mass, ms[hit.entity1], ms[hit.entity2]);
      ms[hit.entity2 := w2][hit.entity1 := w1]
    else ms[hit.entity1 := Reflect(hit.normal, ms[hit.entity1])]
  }

  /**
   * The response of a hit between two distinct moving bodies conserves
   * their total momentum and kinetic energy; against a static body with a
   * unit normal it mirrors the velocity, keeping its length.
   */
  lemma VelocitiesAfterConserve(ms: map<Entity, Vec2>, cs: map<Entity, Collider>, hit: HitData)
    requires hit.entity1 in ms && hit.entity1 in cs
    requires hit.dynamic ==> hit.entity2 in ms && hit.entity2 in cs
    ensures var r := VelocitiesAfter(ms, cs, hit);
      && (forall e :: e in ms && e != hit.entity1 && (hit.dynamic ==> e != hit.entity2) ==> r[e] == ms[e])
      && (hit.dynamic && hit.entity1 != hit.entity2 && cs[hit.entity1].mass + cs[hit.entity2].mass != 0.0 ==>
            var m1, m2 := cs[hit.entity1].mass, cs[hit.entity2].mass;
            && Momentum(m1, m2, r[hit.entity1], r[hit.entity2]) == Momentum(m1, m2, ms[hit.entity1], ms[hit.entity2])
            && Energy(m1, m2, r[hit.entity1], r[hit.entity2]) == Energy(m1, m2, ms[hit.entity1], ms[hit.entity2]))
      && (!hit.dynamic && Dot(hit.normal, hit.normal) == 1.0 ==>
            && Dot(hit.normal, r[hit.entity1]) == -Dot(hit.normal, ms[hit.entity1])
            && Dot(r[hit.entity1], r[hit.entity1]) == Dot(ms[hit.entity1], ms[hit.entity1]))
  {
    if hit.dynamic {
      var m1, m2 := cs[hit.entity1].mass, cs[hit.entity2].mass;
      if hit.entity1 != hit.entity2 && m1 + m2 != 0.0 {
        ElasticConserves(m1, m2, ms[hit.entity1], ms[hit.entity2]);
      }
    } else if Dot(hit.normal, hit.normal) == 1.0 {
      ReflectIsMirror(hit.normal, ms[hit.entity1]);
    }
  }

  class PhysicsEngine2D {
    const reg: Registry
    const revision: Revision
    /** The shape dispatcher of this revision, `collision`'s arithmetic. */
    const predict: Predictor
    /** How deep the invalidation cascade of calculate_collision may recurse. */
    const cascadeLimit: nat
    var hitlist: seq<HitData>
    var earliest: map<Entity, real>
    var events: seq<Event>

    /** `PhysicsEngine2D(registry)`; `sqrt` is sqrtf (see Geometry.IsSqrt). */
    constructor(reg: Registry, sqrt: real -> real, revision: Revision, cascadeLimit: nat)
      ensures this.reg == reg && this.revision == revision
      ensures predict == Dispatcher(sqrt, CornerFactor(revision)) && Sound(predict)
      ensures this.cascadeLimit == cascadeLimit
      ensures hitlist == [] && earliest == map[] && events == []
    {
      this.reg := reg;
      this.revision := revision;
      this.predict := Dispatcher(sqrt, CornerFactor(revision));
      DispatcherSound(sqrt, CornerFactor(revision));
      this.cascadeLimit := cascadeLimit;
      hitlist, earliest, events := [], map[], [];
    }

    /**
     * A queued hit is valid, its first entity is a moving collider, and its
     * second is another moving collider for a dynamic hit and a static
     * collider otherwise.
     */
    ghost predicate Queued(h: HitData)
      reads reg
    {
      && h.valid
      && reg.IsMoving(h.entity1)
      && (if h.dynamic then reg.IsMoving(h.entity2) && h.entity2 != h.entity1
          else reg.IsFixed(h.entity2))
    }

    ghost predicate Valid()
      reads this, reg
    {
      && Sound(predict)
      && reg.Valid()
      && forall h :: h in hitlist ==> Queued(h)
    }

    /** No queued hit lies in the past. */
    ghost predicate Future()
      reads this
    {
      forall h :: h in hitlist ==> h.time >= 0.0
    }

    /** The velocity `collision` uses: Motion2D's, or zero without one. */
    function Velocity(e: Entity): Vec2
      reads reg
    {
      if e in reg.motions then reg.motions[e] else Zero2
    }

    /** What `collision(hit, e1, e2)` computes from the two entities' components. */
    function Candidate(hit: HitData, e1: Entity, e2: Entity): HitData
      reads reg
      requires e1 in reg.transforms && e1 in reg.colliders
      requires e2 in reg.transforms && e2 in reg.colliders
    {
      predict(hit, e1, e2,
              reg.transforms[e1], reg.colliders[e1].bbox, Velocity(e1),
              reg.transforms[e2], reg.colliders[e2].bbox, Velocity(e2))
    }

    /**
     * `collision(hit, e1, e2)`: fetches both entities' transforms, shapes and
     * velocities (zero without Motion2D) and runs the dispatcher, which
     * overwrites the pair, validity and time of the scratch hit.
     */
    method Collision(hit: HitData, e1: Entity, e2: Entity) returns (r: HitData)
      requires Sound(predict)
      requires e1 in reg.transforms && e1 in reg.colliders
      requires e2 in reg.transforms && e2 in reg.colliders
      ensures r == Candidate(hit, e1, e2)
      ensures r.entity1 == e1 && r.entity2 == e2 && r.dynamic == hit.dynamic
      ensures r.valid ==> r.time >= 0.0
      ensures !r.valid ==> r.time == InvalidTime
      ensures (r.valid || Candidate(Probe(hit.dynamic), e1, e2).valid) ==> r == Candidate(Probe(hit.dynamic), e1, e2)
    {
      r := predict(hit, e1, e2,
                   reg.transforms[e1], reg.colliders[e1].bbox, Velocity(e1),
                   reg.transforms[e2], reg.colliders[e2].bbox, Velocity(e2));
    }

    /** `clear()`. */
    method Clear()
      modifies this
      ensures hitlist == [] && earliest == map[] && events == old(events)
    {
      hitlist, earliest := [], map[];
    }

    /** `delete_entity(e)`: drops every queued hit of `e`; `m_earliest` is kept. */
    method DeleteEntity(e: Entity)
      modifies this
      ensures hitlist == WithoutEntity(old(hitlist), e)
      ensures earliest == old(earliest) && events == old(events)
    {
      var kept := [];
      for i := 0 to |hitlist|
        invariant kept == WithoutEntity(hitlist[..i], e)
      {
        assert hitlist[..i + 1][..i] == hitlist[..i];
        if !Involves(hitlist[i], e) {
          kept := kept + [hitlist[i]];
        }
      }
      assert hitlist[..|hitlist|] == hitlist;
      hitlist := kept;
    }

    /** `push_to_hitlist(h)`. */
    method PushToHitlist(h: HitData)
      modifies this
      ensures hitlist == Pushed(old(hitlist), h)
      ensures earliest == old(earliest) && events == old(events)
    {
      if !h.valid {
        return;
      }
      for i := 0 to |hitlist|
        invariant forall k :: 0 <= k < i ==> !(h.entity1 == hitlist[k].entity2 && h.entity2 == hitlist[k].entity1)
      {
        if h.entity1 == hitlist[i].entity2 && h.entity2 == hitlist[i].entity1 {
          assert HasReverse(hitlist, h);
          return;
        }
      }
      hitlist := hitlist + [h];
    }

    /** The loop `for (HitData& h : m_hitlist) h.time -= dt`. */
    method ShiftTimes(dt: real)
      modifies this
      ensures hitlist == Shifted(old(hitlist), dt)
      ensures earliest == old(earliest) && events == old(events)
    {
      for i := 0 to |hitlist|
        invariant |hitlist| == |old(hitlist)|
        invariant earliest == old(earliest) && events == old(events)
        invariant forall k :: 0 <= k < i ==> hitlist[k] == old(hitlist)[k].(time := old(hitlist)[k].time - dt)
        invariant forall k :: i <= k < |hitlist| ==> hitlist[k] == old(hitlist)[k]
      {
        hitlist := hitlist[i := hitlist[i].(time := hitlist[i].time - dt)];
      }
    }

    /**
     * The response step of `resolve_hit`: the elastic formula for two moving
     * bodies, entity2's velocity written first, or the reflection of
     * entity1's velocity about the hit normal.
     */
    method Respond(hit: HitData)
      requires hit.entity1 in reg.motions && hit.entity1 in reg.colliders
      requires hit.dynamic ==> hit.entity2 in reg.motions && hit.entity2 in reg.colliders
      modifies reg
      ensures reg.entities == old(reg.entities) && reg.colliders == old(reg.colliders)
      ensures reg.motions == VelocitiesAfter(old(reg.motions), reg.colliders, hit)
      ensures reg.transforms == old(reg.transforms) && reg.now == old(reg.now)
    {
      if hit.dynamic {
        var m1, m2 := reg.colliders[hit.entity1].mass, reg.colliders[hit.entity2].mass;
        var (v1, v2) := Elastic(m1, m2, reg.motions[hit.entity1], reg.motions[hit.entity2]);
        reg.motions := reg.motions[hit.entity2 := v2];
        reg.motions := reg.motions[hit.entity1 := v1];
      } else {
        var u1 := reg.motions[hit.entity1];
        reg.motions := reg.motions[hit.entity1 := Sub(u1, Scale(2.0 * Dot(hit.normal, u1), hit.normal))];
      }
    }

    /**
     * `resolve_hit(hit)`: moves the world to the hit, applies the velocity
     * response, rebases every queued and committed time to the hit, marks
     * the participants as uncommitted and (source-file revision) fires both
     * `on_collision` handlers.
     */
    method ResolveHit(hit: HitData)
      requires Valid() && Queued(hit)
      modifies this, reg
      ensures reg.entities == old(reg.entities) && reg.colliders == old(reg.colliders)
      ensures reg.transforms == Advanced(old(reg.transforms), old(reg.motions), hit.time)
      ensures reg.motions == VelocitiesAfter(old(reg.motions), old(reg.colliders), hit)
      ensures hitlist == Shifted(old(hitlist), hit.time)
      ensures earliest == Invalidated(Rebased(old(earliest), hit.time), hit)
      ensures events == old(events) +
        (if revision == SourceFile then [OnCollision(hit.entity1, hit.entity2), OnCollision(hit.entity2, hit.entity1)]
         else [])
      ensures reg.now == old(reg.now) + hit.time
      ensures forall e :: reg.IsMoving(e) == old(reg.IsMoving(e)) && reg.IsFixed(e) == old(reg.IsFixed(e))
      ensures Valid()
    {
      ShiftedQueued(hitlist, hit.time);
      reg.Advance(hit.time);
      Respond(hit);
      ShiftTimes(hit.time);
      earliest := Rebased(earliest, hit.time);
      earliest := earliest[hit.entity1 := InvalidTime];
      if hit.dynamic {
        earliest := earliest[hit.entity2 := InvalidTime];
      }
      if revision == SourceFile {
        events := events + [OnCollision(hit.entity1, hit.entity2), OnCollision(hit.entity2, hit.entity1)];
      }
      ViewsKept(hitlist);
    }

    /** Shifting times keeps every hit queueable. */
    lemma ShiftedQueued(hs: seq<HitData>, dt: real)
      requires forall h :: h in hs ==> Queued(h)
      ensures forall h :: h in Shifted(hs, dt) ==> Queued(h)
    {
      forall h | h in Shifted(hs, dt) ensures Queued(h) {
        var k :| 0 <= k < |hs| && Shifted(hs, dt)[k] == h;
        assert hs[k] in hs;
      }
    }

    /** A change of the registry that keeps both views keeps every hit queueable. */
    twostate lemma ViewsKept(hs: seq<HitData>)
      requires forall e :: reg.IsMoving(e) == old(reg.IsMoving(e)) && reg.IsFixed(e) == old(reg.IsFixed(e))
      requires forall h :: h in hs ==> old(Queued(h))
      ensures forall h :: h in hs ==> Queued(h)
    {
    }

    /**
     * A moving collider `o` that `calculate_collision(entity)` may pair with
     * `entity`: another moving collider whose predicted hit is valid and
     * earlier than `o`'s committed time in `e0` (a missing key reading 0).
     */
    ghost predicate DynamicCandidate(entity: Entity, o: Entity, e0: map<Entity, real>)
      reads reg
      requires entity in reg.transforms && entity in reg.colliders
    {
      && reg.IsMoving(o) && o != entity
      && var c := Candidate(Probe(true), entity, o);
         c.valid && c.time < Get(e0, o)
    }

    /** A static collider `o` that a moving `entity` may hit. */
    ghost predicate StaticCandidate(entity: Entity, o: Entity)
      reads reg
      requires entity in reg.transforms && entity in reg.colliders
    {
      && entity in reg.motions
      && reg.IsFixed(o)
      && Candidate(Probe(false), entity, o).valid
    }

    /** The selection `s` is no later than the candidate hit `c`, and is valid if `c` could win. */
    ghost predicate Beats(s: HitData, c: HitData)
    {
      s.time <= c.time && (c.time < InvalidTime ==> s.valid)
    }

    /**
     * `s` is a possible outcome of the search for `entity`: the default hit,
     * or a qualifying prediction for `entity` against its second entity.
     */
    ghost predicate Chosen(entity: Entity, s: HitData, e0: map<Entity, real>)
      reads reg
      requires entity in reg.transforms && entity in reg.colliders
    {
      && (!s.valid ==> s == DefaultHit())
      && (s.valid ==>
            && s.entity1 == entity && s.time >= 0.0
            && (if s.dynamic then DynamicCandidate(entity, s.entity2, e0) else StaticCandidate(entity, s.entity2))
            && s == Candidate(Probe(s.dynamic), entity, s.entity2))
    }

    /** Every collider of `os` has the components `collision` reads. */
    ghost predicate Shaped(os: seq<Entity>)
      reads reg
    {
      forall k :: 0 <= k < |os| ==> os[k] in reg.transforms && os[k] in reg.colliders
    }

    /**
     * One iteration of a search loop of `calculate_collision(entity)`: the
     * prediction against `o` replaces the selection `s` when it is strictly
     * earlier (`operator<`), and in the loop over moving colliders only for
     * another entity whose committed time in `e0` (a missing key reading 0)
     * it beats.
     */
    function Step(entity: Entity, s: HitData, o: Entity, dynamic: bool, e0: map<Entity, real>): HitData
      reads reg
      requires entity in reg.transforms && entity in reg.colliders
      requires o in reg.transforms && o in reg.colliders
    {
      var c := Candidate(Probe(dynamic), entity, o);
      if (dynamic ==> o != entity && c.valid && c.time < Get(e0, o)) && Less(c, s) then c else s
    }

    /** One search loop over the first `n` colliders of `os`, from the selection `start`. */
    function Scanned(entity: Entity, start: HitData, os: seq<Entity>, n: nat, dynamic: bool, e0: map<Entity, real>): HitData
      reads reg
      requires entity in reg.transforms && entity in reg.colliders
      requires n <= |os| && Shaped(os)
      decreases n
    {
      if n == 0 then start
      else Step(entity, Scanned(entity, start, os, n - 1, dynamic, e0), os[n - 1], dynamic, e0)
    }

    /** The colliders among the first `n` of `os` whose `m_earliest` entry the moving loop reads. */
    function ProbedUpTo(entity: Entity, os: seq<Entity>, n: nat): (r: set<Entity>)
      reads reg
      requires entity in reg.transforms && entity in reg.colliders
      requires n <= |os| && Shaped(os)
      ensures forall o :: o in r ==> o in os && o in reg.transforms && o in reg.colliders && o != entity && Candidate(Probe(true), entity, o).valid
      ensures forall k :: 0 <= k < n && os[k] != entity && Candidate(Probe(true), entity, os[k]).valid ==> os[k] in r
      decreases n
    {
      if n == 0 then {}
      else
        var o := os[n - 1];
        ProbedUpTo(entity, os, n - 1) + (if o != entity && Candidate(Probe(true), entity, o).valid then {o} else {})
    }

    /** The moving colliders other than `entity` with a valid predicted hit against it. */
    ghost function Probed(entity: Entity): set<Entity>
      reads reg
      requires entity in reg.transforms && entity in reg.colliders
    {
      set o | o in reg.entities && reg.IsMoving(o) && o != entity && Candidate(Probe(true), entity, o).valid
    }

    /** The loop over the moving colliders reads exactly the entries of `Probed(entity)`. */
    lemma ProbedComplete(entity: Entity)
      requires entity in reg.transforms && entity in reg.colliders
      ensures var moving := reg.Moving();
        Shaped(moving) && ProbedUpTo(entity, moving, |moving|) == Probed(entity)
    {
      var moving := reg.Moving();
      assert Shaped(moving);
      forall o | o in Probed(entity) ensures o in ProbedUpTo(entity, moving, |moving|) {
        assert o in moving;
        var k :| 0 <= k < |moving| && moving[k] == o;
      }
      forall o | o in ProbedUpTo(entity, moving, |moving|) ensures o in Probed(entity) {
        assert o in moving;
      }
    }

    /** The qualifying candidates of a scan. */
    ghost predicate Qualifies(entity: Entity, o: Entity, dynamic: bool, e0: map<Entity, real>)
      reads reg
      requires entity in reg.transforms && entity in reg.colliders
    {
      if dynamic then DynamicCandidate(entity, o, e0) else StaticCandidate(entity, o)
    }

    /** The first `n` colliders of `os` belong to the view the scan walks. */
    ghost predicate InView(entity: Entity, os: seq<Entity>, n: nat, dynamic: bool)
      reads reg
      requires n <= |os|
    {
      forall k :: 0 <= k < n ==> if dynamic then reg.IsMoving(os[k]) else entity in reg.motions && reg.IsFixed(os[k])
    }

    /**
     * An iteration over a collider of the right view keeps a possible
     * outcome, never moves the selection later or makes it invalid, and
     * ends no later than the prediction against that collider when it
     * qualifies.
     */
    lemma StepChosen(entity: Entity, s: HitData, o: Entity, dynamic: bool, e0: map<Entity, real>)
      requires Tidy(predict)
      requires entity in reg.transforms && entity in reg.colliders
      requires if dynamic then reg.IsMoving(o) else entity in reg.motions && reg.IsFixed(o)
      requires Chosen(entity, s, e0)
      ensures var s' := Step(entity, s, o, dynamic, e0);
        && Chosen(entity, s', e0)
        && s'.time <= s.time && (s.valid ==> s'.valid)
        && (s' == s || s'.dynamic == dynamic)
        && (Qualifies(entity, o, dynamic, e0) ==> Beats(s', Candidate(Probe(dynamic), entity, o)))
    {
      var c := Candidate(Probe(dynamic), entity, o);
      if (dynamic ==> o != entity && c.valid && c.time < Get(e0, o)) && Less(c, s) {
        assert Chosen(entity, c, e0);
      }
    }

    /**
     * A scan over colliders of the right view keeps a possible outcome and
     * never moves the selection later.
     */
    lemma {:induction false} ScannedChosen(entity: Entity, start: HitData, os: seq<Entity>, n: nat, dynamic: bool, e0: map<Entity, real>)
      requires Tidy(predict)
      requires entity in reg.transforms && entity in reg.colliders
      requires n <= |os| && Shaped(os) && InView(entity, os, n, dynamic)
      requires Chosen(entity, start, e0)
      ensures var s := Scanned(entity, start, os, n, dynamic, e0);
        && Chosen(entity, s, e0)
        && s.time <= start.time && (start.valid ==> s.valid)
        && (s == start || s.dynamic == dynamic)
      decreases n
    {
      if n > 0 {
        ScannedChosen(entity, start, os, n - 1, dynamic, e0);
        StepChosen(entity, Scanned(entity, start, os, n - 1, dynamic, e0), os[n - 1], dynamic, e0);
      }
    }

    /** A scan ends no later than every qualifying candidate it visited. */
    lemma {:induction false} ScannedBeats(entity: Entity, start: HitData, os: seq<Entity>, n: nat, dynamic: bool, e0: map<Entity, real>)
      requires Tidy(predict)
      requires entity in reg.transforms && entity in reg.colliders
      requires n <= |os| && Shaped(os) && InView(entity, os, n, dynamic)
      requires Chosen(entity, start, e0)
      ensures var s := Scanned(entity, start, os, n, dynamic, e0);
        forall k :: 0 <= k < n && Qualifies(entity, os[k], dynamic, e0) ==> Beats(s, Candidate(Probe(dynamic), entity, os[k]))
      decreases n
    {
      if n > 0 {
        ScannedBeats(entity, start, os, n - 1, dynamic, e0);
        ScannedChosen(entity, start, os, n - 1, dynamic, e0);
        StepChosen(entity, Scanned(entity, start, os, n - 1, dynamic, e0), os[n - 1], dynamic, e0);
      }
    }

    /**
     * The search of `calculate_collision(entity)` as a value: the moving
     * loop from the default hit, then, for a moving entity, the static loop.
     */
    function Selection(entity: Entity, e0: map<Entity, real>): HitData
      reads reg
      requires entity in reg.transforms && entity in reg.colliders
    {
      var moving, fixed := reg.Moving(), reg.Fixed();
      assert Shaped(moving) && Shaped(fixed);
      var s := Scanned(entity, DefaultHit(), moving, |moving|, true, e0);
      if entity in reg.motions then Scanned(entity, s, fixed, |fixed|, false, e0) else s
    }

    /**
     * The search selects a possible outcome, a valid hit not in the past,
     * no later than any qualifying candidate, moving or static.
     */
    lemma SelectionFacts(entity: Entity, e0: map<Entity, real>)
      requires Tidy(predict)
      requires entity in reg.transforms && entity in reg.colliders
      ensures var s := Selection(entity, e0);
        && Chosen(entity, s, e0)
        && (forall o :: DynamicCandidate(entity, o, e0) ==> Beats(s, Candidate(Probe(true), entity, o)))
        && (forall o :: StaticCandidate(entity, o) ==> Beats(s, Candidate(Probe(false), entity, o)))
    {
      var moving, fixed := reg.Moving(), reg.Fixed();
      assert Shaped(moving) && Shaped(fixed);
      assert InView(entity, moving, |moving|, true);
      var s := Scanned(entity, DefaultHit(), moving, |moving|, true, e0);
      ScannedChosen(entity, DefaultHit(), moving, |moving|, true, e0);
      ScannedBeats(entity, DefaultHit(), moving, |moving|, true, e0);
      var s' := if entity in reg.motions then Scanned(entity, s, fixed, |fixed|, false, e0) else s;
      if entity in reg.motions {
        assert InView(entity, fixed, |fixed|, false);
        ScannedChosen(entity, s, fixed, |fixed|, false, e0);
        ScannedBeats(entity, s, fixed, |fixed|, false, e0);
      }
      forall o | DynamicCandidate(entity, o, e0) ensures Beats(s', Candidate(Probe(true), entity, o)) {
        assert o in moving;
        var k :| 0 <= k < |moving| && moving[k] == o;
        assert Qualifies(entity, moving[k], true, e0);
      }
      forall o | StaticCandidate(entity, o) ensures Beats(s', Candidate(Probe(false), entity, o)) {
        assert o in fixed;
        var k :| 0 <= k < |fixed| && fixed[k] == o;
        assert Qualifies(entity, fixed[k], false, e0);
      }
    }

    /**
     * The search loops of `calculate_collision(entity)`. Reading
     * `m_earliest[other]` inserts 0 for a missing key, and only for valid
     * predictions since `&&` short-circuits.
     */
    method SelectHit(entity: Entity) returns (selected: HitData)
      requires Sound(predict)
      requires entity in reg.transforms && entity in reg.colliders
      modifies this
      ensures hitlist == old(hitlist) && events == old(events)
      ensures earliest == WithDefaults(old(earliest), Probed(entity))
      ensures selected == Selection(entity, old(earliest))
    {
      selected := ScanMoving(entity);
      if entity in reg.motions {
        selected := ScanFixed(entity, selected, old(earliest));
      }
    }

    /**
     * One iteration of the loop over the moving colliders: skip `entity`
     * itself, predict into the reused scratch hit `temp`, read (and so
     * default) `m_earliest[other]` for a valid prediction, and keep the
     * prediction if it beats both that time and the selection.
     */
    method VisitMoving(entity: Entity, other: Entity, temp: HitData, selected: HitData,
                       ghost e0: map<Entity, real>, ghost probed: set<Entity>)
      returns (temp': HitData, selected': HitData)
      requires Sound(predict)
      requires entity in reg.transforms && entity in reg.colliders
      requires other in reg.transforms && other in reg.colliders
      requires temp.dynamic && earliest == WithDefaults(e0, probed)
      modifies this
      ensures hitlist == old(hitlist) && events == old(events)
      ensures temp'.dynamic
      ensures selected' == Step(entity, selected, other, true, e0)
      ensures earliest == WithDefaults(e0, probed +
        if other != entity && Candidate(Probe(true), entity, other).valid then {other} else {})
    {
      temp', selected' := temp, selected;
      if other == entity {
        assert probed + {} == probed;
        return;
      }
      temp' := Collision(temp, entity, other);
      if temp'.valid {
        WithDefaultsInsert(e0, probed, other);
        if other !in earliest {
          earliest := earliest[other := 0.0];
        }
        assert earliest[other] == Get(e0, other);
        if temp'.time < earliest[other] && Less(temp', selected) {
          selected' := temp';
        }
      } else {
        assert probed + {} == probed;
      }
    }

    /** The loop over the moving colliders. */
    method ScanMoving(entity: Entity) returns (selected: HitData)
      requires Sound(predict)
      requires entity in reg.transforms && entity in reg.colliders
      modifies this
      ensures hitlist == old(hitlist) && events == old(events)
      ensures earliest == WithDefaults(old(earliest), Probed(entity))
      ensures selected == Scanned(entity, DefaultHit(), reg.Moving(), |reg.Moving()|, true, old(earliest))
    {
      selected := DefaultHit();
      var temp := Probe(true);
      ghost var e0 := earliest;
      ghost var probed: set<Entity> := {};
      var moving := reg.Moving();
      assert Shaped(moving);
      assert earliest == WithDefaults(e0, probed);
      for i := 0 to |moving|
        invariant hitlist == old(hitlist) && events == old(events)
        invariant probed == ProbedUpTo(entity, moving, i)
        invariant earliest == WithDefaults(e0, probed)
        invariant temp.dynamic
        invariant selected == Scanned(entity, DefaultHit(), moving, i, true, e0)
      {
        temp, selected := VisitMoving(entity, moving[i], temp, selected, e0, probed);
        probed := ProbedUpTo(entity, moving, i + 1);
      }
      ProbedComplete(entity);
    }

    /** The loop over the static colliders, continuing the selection `start`. */
    method ScanFixed(entity: Entity, start: HitData, ghost e0: map<Entity, real>) returns (selected: HitData)
      requires Sound(predict)
      requires entity in reg.transforms && entity in reg.colliders
      ensures selected == Scanned(entity, start, reg.Fixed(), |reg.Fixed()|, false, e0)
    {
      selected := start;
      var temp := Probe(false);
      var fixed := reg.Fixed();
      assert Shaped(fixed);
      for i := 0 to |fixed|
        invariant !temp.dynamic
        invariant selected == Scanned(entity, start, fixed, i, false, e0)
      {
        var other := fixed[i];
        temp := Collision(temp, entity, other);
        if temp.valid && Less(temp, selected) {
          selected := temp;
        }
      }
    }

    /**
     * The hit `calculate_collision(entity)` queues for its selection `s`:
     * for an entity without Motion2D the pair is swapped so that the moving
     * collider comes first, and the hit becomes static.
     */
    function Committed(entity: Entity, s: HitData): HitData
      reads reg
    {
      if entity in reg.motions then s else s.(entity1 := s.entity2, entity2 := entity, dynamic := false)
    }

    /**
     * A valid selection for a live collider is committed as a hit the queue
     * may hold, not in the past, and involving `entity`.
     */
    lemma CommittedQueued(entity: Entity, e0: map<Entity, real>)
      requires Tidy(predict)
      requires entity in reg.entities && entity in reg.transforms && entity in reg.colliders
      ensures var s := Selection(entity, e0);
        s.valid ==>
          var h := Committed(entity, s);
          && Queued(h) && h.time == s.time && h.time >= 0.0
          && (h.entity1 == entity || h.entity2 == entity)
    {
      SelectionFacts(entity, e0);
    }

    /** Every entity a stale queued hit leaves without a partner moves. */
    lemma {:induction false} OrphansMoving(hs: seq<HitData>, sel: HitData)
      requires forall h :: h in hs ==> Queued(h)
      ensures forall k :: 0 <= k < |Orphans(hs, sel)| ==> reg.IsMoving(Orphans(hs, sel)[k])
    {
      if |hs| > 0 {
        var init := hs[..|hs| - 1];
        assert forall h :: h in init ==> h in hs;
        OrphansMoving(init, sel);
        assert Queued(hs[|hs| - 1]);
      }
    }

    /**
     * The cleanup loop of `calculate_collision` after committing the dynamic
     * hit `h`: drop every stale hit of the partner, collecting the entities
     * left without a partner.
     */
    method DropStale(h: HitData) returns (orphans: seq<Entity>)
      modifies this
      ensures hitlist == Survivors(old(hitlist), h)
      ensures orphans == Orphans(old(hitlist), h)
      ensures earliest == old(earliest) && events == old(events)
    {
      var kept;
      kept, orphans := SplitStale(hitlist, h);
      hitlist := kept;
    }

    /**
     * Queuing the committed hit: push it, record its time as the committed
     * time of its participants, and for a dynamic hit drop the stale hits.
     */
    method Commit(entity: Entity, selected: HitData) returns (orphans: seq<Entity>)
      requires Valid() && Future()
      requires Queued(Committed(entity, selected)) && selected.time >= 0.0
      modifies this
      ensures var h := Committed(entity, selected);
        && hitlist == CommitQueue(old(hitlist), h)
        && earliest == CommitTimes(old(earliest), h)
        && orphans == CommitOrphans(old(hitlist), h)
      ensures events == old(events)
      ensures Valid() && Future()
      ensures forall k :: 0 <= k < |orphans| ==> reg.IsMoving(orphans[k])
    {
      var h := selected;
      if entity !in reg.motions {
        h := h.(entity1 := h.entity2, entity2 := entity, dynamic := false);
      }
      hitlist := hitlist + [h];
      earliest := earliest[h.entity1 := h.time];
      if h.dynamic {
        earliest := earliest[h.entity2 := h.time];
      }
      assert forall g :: g in hitlist ==> Queued(g) && g.time >= 0.0;
      orphans := [];
      if h.dynamic {
        OrphansMoving(hitlist, h);
        orphans := DropStale(h);
      }
    }

    /**
     * `calculate_collision(entity)`: nothing for a dead entity; otherwise
     * search the next hit of `entity`, commit it, and cascade to the
     * entities the commit left without a partner, to a depth of `fuel`.
     */
    method CalculateCollision(entity: Entity, fuel: nat)
      requires Valid() && Future()
      requires entity in reg.entities ==> entity in reg.transforms && entity in reg.colliders
      modifies this
      ensures Valid() && Future() && events == old(events)
      ensures old(earliest).Keys <= earliest.Keys
      ensures entity !in reg.entities ==> hitlist == old(hitlist) && earliest == old(earliest)
      // a live entity without a qualifying hit only defaults the entries it read
      ensures entity in reg.entities && !Selection(entity, old(earliest)).valid ==>
        hitlist == old(hitlist) && earliest == WithDefaults(old(earliest), Probed(entity))
      // without a cascade, the selected hit is committed and its orphans uncommitted
      ensures entity in reg.entities && Selection(entity, old(earliest)).valid && fuel == 0 ==>
        var h := Committed(entity, Selection(entity, old(earliest)));
        && hitlist == CommitQueue(old(hitlist), h)
        && earliest == Uncommitted(CommitTimes(WithDefaults(old(earliest), Probed(entity)), h), CommitOrphans(old(hitlist), h))
      decreases fuel, 2
    {
      if entity !in reg.entities {
        return;
      }
      ghost var e0 := earliest;
      var selected := SelectHit(entity);
      if !selected.valid {
        return;
      }
      CommittedQueued(entity, e0);
      var orphans := Commit(entity, selected);
      Cascade(orphans, fuel);
    }

    /**
     * Each entity left without a partner gets an invalid committed time and,
     * while `fuel` lasts, a new search.
     */
    method Cascade(orphans: seq<Entity>, fuel: nat)
      requires Valid() && Future()
      requires forall k :: 0 <= k < |orphans| ==> reg.IsMoving(orphans[k])
      modifies this
      ensures Valid() && Future() && events == old(events)
      ensures old(earliest).Keys <= earliest.Keys
      ensures forall k :: 0 <= k < |orphans| ==> orphans[k] in earliest
      ensures fuel == 0 ==> hitlist == old(hitlist) && earliest == Uncommitted(old(earliest), orphans)
      decreases fuel, 1
    {
      for i := 0 to |orphans|
        invariant Valid() && Future() && events == old(events)
        invariant old(earliest).Keys <= earliest.Keys
        invariant forall k :: 0 <= k < i ==> orphans[k] in earliest
        invariant fuel == 0 ==> hitlist == old(hitlist) && earliest == Uncommitted(old(earliest), orphans[..i])
      {
        assert orphans[..i + 1] == orphans[..i] + [orphans[i]];
        UncommittedStep(old(earliest), orphans[..i], orphans[i]);
        Reschedule(orphans[i], fuel);
      }
      assert orphans[..|orphans|] == orphans;
    }

    /** One orphan of the cascade: an invalid committed time, then a new search while fuel lasts. */
    method Reschedule(x: Entity, fuel: nat)
      requires Valid() && Future() && reg.IsMoving(x)
      modifies this
      ensures Valid() && Future() && events == old(events)
      ensures old(earliest).Keys <= earliest.Keys && x in earliest
      ensures fuel == 0 ==> hitlist == old(hitlist) && earliest == old(earliest)[x := InvalidTime]
      decreases fuel, 0
    {
      earliest := earliest[x := InvalidTime];
      if fuel > 0 {
        CalculateCollision(x, fuel - 1);
      }
    }

    /**
     * `update_entity(e)` (and `add_entity(e)`, which calls it): drop the
     * queued hits of `e`, then search its next hit.
     */
    method UpdateEntity(e: Entity)
      requires Valid() && Future()
      requires e in reg.entities ==> e in reg.transforms && e in reg.colliders
      modifies this
      ensures Valid() && Future() && events == old(events)
      ensures forall h :: h in hitlist && Involves(h, e) ==> e in reg.entities
      ensures e !in reg.entities ==> hitlist == WithoutEntity(old(hitlist), e) && earliest == old(earliest)
      // the search starts from the queue without e's hits
      ensures e in reg.entities && !Selection(e, old(earliest)).valid ==>
        hitlist == WithoutEntity(old(hitlist), e) && earliest == WithDefaults(old(earliest), Probed(e))
      ensures e in reg.entities && Selection(e, old(earliest)).valid && cascadeLimit == 0 ==>
        var h := Committed(e, Selection(e, old(earliest)));
        var base := WithoutEntity(old(hitlist), e);
        && hitlist == CommitQueue(base, h)
        && earliest == Uncommitted(CommitTimes(WithDefaults(old(earliest), Probed(e)), h), CommitOrphans(base, h))
    {
      DeleteEntity(e);
      CalculateCollision(e, cascadeLimit);
    }

    /**
     * `process(dt)`: pop the earliest hit while it lies within the time
     * left, move the world to it, resolve it, report it and search new
     * hits for its participants; then move the world by the time left and
     * rebase the queue. At most `maxEvents` hits are resolved; `exhausted`
     * says the bound stopped the loop with a due hit pending.
     */
    method Process(dt: real, maxEvents: nat)
      returns (resolved: nat, exhausted: bool, ghost popped: seq<HitData>, ghost stages: seq<Stage>,
               ghost times: seq<real>, ghost remaining: real, ghost settled: map<Entity, Transform>, ghost pending: seq<HitData>)
      requires Valid() && Future()
      modifies this, reg
      ensures Valid()
      ensures reg.now == old(reg.now) + dt
      ensures reg.entities == old(reg.entities) && reg.colliders == old(reg.colliders)
      ensures resolved <= maxEvents && (exhausted ==> resolved == maxEvents)
      // the resolved hits: each the earliest of the queue as it then stood,
      // the world moved to it and the response applied, and reported
      ensures |popped| == resolved && Trace(stages, popped, reg.colliders)
      ensures stages[0] == Stage(old(hitlist), old(reg.transforms), old(reg.motions))
      ensures stages[resolved] == Stage(pending, settled, reg.motions)
      ensures resolved == 0 ==> pending == old(hitlist) && settled == old(reg.transforms) && reg.motions == old(reg.motions)
      ensures events == old(events) + Reports(revision, popped)
      ensures !exhausted ==> forall h :: h in hitlist ==> h.time > 0.0
      // the budget: each resolved hit fits in the time left before it, and
      // what is left at the end is dt less the resolved times
      ensures |times| == resolved && forall i :: 0 <= i < resolved ==> times[i] == popped[i].time
      ensures WithinBudget(times, dt)
      ensures remaining == dt - Total(times)
      ensures dt >= 0.0 ==> remaining >= 0.0
      ensures dt < 0.0 ==> resolved == 0
      // the loop stops at the first hit beyond the budget, unless cut short
      ensures !exhausted ==> forall h :: h in pending ==> h.time > remaining
      // the flush: the world moves by the time left and the queue is rebased to it
      ensures reg.transforms == Advanced(settled, reg.motions, remaining)
      ensures hitlist == Shifted(pending, remaining)
    {
      var local;
      resolved, exhausted, local, popped, stages := ConsumeDue(dt, maxEvents);
      pending, settled, remaining := hitlist, reg.transforms, local;
      times := Times(popped);
      TimesAt(popped);
      AdvanceWorld(local);
      ShiftedFloor(pending, local, local);
    }

    /**
     * The loop of `process`: while the earliest queued hit lies within the
     * time left, pop and handle it. `local` is the time left at the end.
     */
    method ConsumeDue(dt: real, maxEvents: nat)
      returns (resolved: nat, exhausted: bool, local: real, ghost popped: seq<HitData>, ghost stages: seq<Stage>)
      requires Valid() && Future()
      modifies this, reg
      ensures Valid() && Future()
      ensures reg.now + local == old(reg.now) + dt
      ensures reg.entities == old(reg.entities) && reg.colliders == old(reg.colliders)
      ensures resolved <= maxEvents && (exhausted ==> resolved == maxEvents)
      ensures |popped| == resolved && Trace(stages, popped, reg.colliders)
      ensures stages[0] == Stage(old(hitlist), old(reg.transforms), old(reg.motions))
      ensures stages[resolved] == Stage(hitlist, reg.transforms, reg.motions)
      ensures events == old(events) + Reports(revision, popped)
      ensures Budgeted(popped, dt, local)
      ensures !exhausted ==> forall h :: h in hitlist ==> h.time > local
    {
      local := dt;
      resolved, exhausted := 0, false;
      popped := [];
      stages := [Stage(hitlist, reg.transforms, reg.motions)];
      ghost var first := stages[0];
      while hitlist != []
        invariant Valid() && Future()
        invariant reg.now + local == old(reg.now) + dt
        invariant reg.entities == old(reg.entities) && reg.colliders == old(reg.colliders)
        invariant resolved == |popped| <= maxEvents && !exhausted
        invariant Logged(stages, popped, first, Stage(hitlist, reg.transforms, reg.motions), events, old(events), reg.colliders, revision)
        invariant Budgeted(popped, dt, local)
        decreases maxEvents - resolved
      {
        if resolved == maxEvents {
          exhausted := true;
          break;
        }
        var due;
        due, local, stages, popped := ConsumeNext(dt, local, stages, popped, first, old(events));
        if !due {
          break;
        }
        resolved := resolved + 1;
      }
    }

    /**
     * One pass of `process`'s loop: when the earliest queued hit lies
     * within the time `local` left, pop and handle it and take its time
     * from `local`; otherwise change nothing.
     */
    method ConsumeNext(dt: real, local: real, ghost stages: seq<Stage>, ghost popped: seq<HitData>,
                       ghost first: Stage, ghost before: seq<Event>)
      returns (due: bool, local': real, ghost stages': seq<Stage>, ghost popped': seq<HitData>)
      requires Valid() && Future() && hitlist != []
      requires Logged(stages, popped, first, Stage(hitlist, reg.transforms, reg.motions), events, before, reg.colliders, revision)
      requires Budgeted(popped, dt, local)
      modifies this, reg
      ensures Valid() && Future()
      ensures reg.now + local' == old(reg.now) + local
      ensures reg.entities == old(reg.entities) && reg.colliders == old(reg.colliders)
      ensures Logged(stages', popped', first, Stage(hitlist, reg.transforms, reg.motions), events, before, reg.colliders, revision)
      ensures Budgeted(popped', dt, local')
      ensures due ==> |popped'| == |popped| + 1
      ensures !due ==> popped' == popped && forall h :: h in hitlist ==> h.time > local'
    {
      var k := EarliestIndex(hitlist);
      var hit := hitlist[k];
      if hit.time > local {
        forall h | h in hitlist ensures h.time > local {
          var j :| 0 <= j < |hitlist| && hitlist[j] == h;
        }
        return false, local, stages, popped;
      }
      assert hit in hitlist;
      BudgetStep(Times(popped), hit.time, dt);
      stages', popped' := Consume(k, stages, popped, first, before);
      due, local' := true, local - hit.time;
    }

    /** One pass of `process`'s loop once the earliest hit, at `k`, is due: pop it and handle it. */
    method Consume(k: nat, ghost stages: seq<Stage>, ghost popped: seq<HitData>, ghost first: Stage, ghost before: seq<Event>)
      returns (ghost stages': seq<Stage>, ghost popped': seq<HitData>)
      requires Valid() && Future()
      requires hitlist != [] && k == EarliestIndex(hitlist)
      requires Logged(stages, popped, first, Stage(hitlist, reg.transforms, reg.motions), events, before, reg.colliders, revision)
      modifies this, reg
      ensures Valid() && Future()
      ensures reg.now == old(reg.now) + old(hitlist)[k].time
      ensures reg.entities == old(reg.entities) && reg.colliders == old(reg.colliders)
      ensures popped' == popped + [old(hitlist)[k]] && Times(popped') == Times(popped) + [old(hitlist)[k].time]
      ensures Logged(stages', popped', first, Stage(hitlist, reg.transforms, reg.motions), events, before, reg.colliders, revision)
    {
      var hit := hitlist[k];
      ghost var s := Stage(hitlist, reg.transforms, reg.motions);
      PopEarliest(k);
      HandleHit(hit);
      ghost var t := Stage(hitlist, reg.transforms, reg.motions);
      assert Resolves(s, hit, t, reg.colliders);
      TraceStep(stages, popped, hit, t, reg.colliders);
      EventsAppended(before, Reports(revision, popped), Report(revision, hit));
      stages', popped' := stages + [t], popped + [hit];
    }

    /**
     * The body of `process`'s loop after the pop: resolve the hit, report it
     * to the callback of each participant (header revision), and search new
     * hits for the participants.
     */
    method HandleHit(hit: HitData)
      requires Valid() && Future() && Queued(hit)
      requires forall h :: h in hitlist ==> h.time >= hit.time
      modifies this, reg
      ensures Valid() && Future()
      ensures reg.now == old(reg.now) + hit.time
      ensures reg.entities == old(reg.entities) && reg.colliders == old(reg.colliders)
      ensures reg.transforms == Advanced(old(reg.transforms), old(reg.motions), hit.time)
      ensures reg.motions == VelocitiesAfter(old(reg.motions), old(reg.colliders), hit)
      ensures events == old(events) + Report(revision, hit)
    {
      ShiftedFloor(hitlist, hit.time, hit.time);
      ResolveHit(hit);
      if revision == InlineHeader {
        events := events + [Callback(hit.entity1), Callback(hit.entity2)];
      }
      Repredict(hit);
    }

    /** The searches after a resolved hit: for entity1, and for entity2 when it moves. */
    method Repredict(hit: HitData)
      requires Valid() && Future() && Queued(hit)
      modifies this
      ensures Valid() && Future() && events == old(events)
    {
      CalculateCollision(hit.entity1, cascadeLimit);
      if hit.dynamic {
        CalculateCollision(hit.entity2, cascadeLimit);
      }
    }

    /**
     * The end of `process`: move every movable body by the time left and
     * rebase the queue to it.
     */
    method AdvanceWorld(dt: real)
      requires Valid()
      modifies this, reg
      ensures Valid()
      ensures reg.now == old(reg.now) + dt
      ensures reg.transforms == Advanced(old(reg.transforms), old(reg.motions), dt)
      ensures reg.entities == old(reg.entities) && reg.colliders == old(reg.colliders) && reg.motions == old(reg.motions)
      ensures hitlist == Shifted(old(hitlist), dt)
      ensures earliest == old(earliest) && events == old(events)
    {
      ShiftedQueued(hitlist, dt);
      reg.Advance(dt);
      ShiftTimes(dt);
      ViewsKept(hitlist);
    }

    /**
     * `pop_heap` and `pop_back` on the queue: take out the earliest hit,
     * whose time no remaining hit undercuts. The remaining hits are then no
     * earlier than it.
     */
    method PopEarliest(k: nat)
      requires Valid() && Future()
      requires hitlist != [] && k == EarliestIndex(hitlist)
      modifies this
      ensures hitlist == RemoveAt(old(hitlist), k)
      ensures earliest == old(earliest) && events == old(events)
      ensures Valid() && Future()
      ensures Queued(old(hitlist)[k])
      ensures forall h :: h in hitlist ==> h.time >= old(hitlist)[k].time
    {
      var hs := hitlist;
      assert hs[k] in hs;
      hitlist := RemoveAt(hs, k);
      forall h | h in hitlist ensures h.time >= hs[k].time {
        assert h in hs;
        var j :| 0 <= j < |hs| && hs[j] == h;
      }
    }

    /** What `construct` keeps while it fills the queue. */
    ghost predicate Building()
      reads this, reg
    {
      && Valid() && Future() && NoReversePairs(hitlist)
      && (forall e :: e in earliest <==> reg.IsMoving(e))
      && (forall e :: e in earliest ==> earliest[e] <= InvalidTime)
      && (forall h :: h in hitlist ==> Predicted(h))
      && (forall h :: h in hitlist && h.dynamic ==> Ahead(reg.Moving(), h.entity1, h.entity2))
      && Reached(earliest, hitlist)
    }

    /** `x` comes before `y` in the view `d`. */
    ghost predicate Ahead(d: seq<Entity>, x: Entity, y: Entity)
    {
      exists i, j :: 0 <= i < j < |d| && d[i] == x && d[j] == y
    }

    /** In a view without repeats no two entities come before each other. */
    lemma AheadOneWay(d: seq<Entity>, x: Entity, y: Entity)
      requires Distinct(d) && Ahead(d, x, y)
      ensures !Ahead(d, y, x)
    {
    }

    /**
     * Every committed time in `e` is INVALID_TIME or the time of a hit of
     * `hs` its entity takes part in.
     */
    ghost predicate Reached(e: map<Entity, real>, hs: seq<HitData>)
    {
      forall x :: x in e ==> e[x] == InvalidTime || exists h :: h in hs && Involves(h, x) && h.time == e[x]
    }

    /** `h` is what `collision` computes for its own pair from a fresh scratch hit. */
    ghost predicate Predicted(h: HitData)
      reads reg
    {
      && h.entity1 in reg.transforms && h.entity1 in reg.colliders
      && h.entity2 in reg.transforms && h.entity2 in reg.colliders
      && h == Candidate(Probe(h.dynamic), h.entity1, h.entity2)
    }

    /**
     * The committed time `e[m]` is no later than the hit `collision` finds
     * between `m` and `o`, if it finds one.
     */
    ghost predicate Bounded(e: map<Entity, real>, m: Entity, o: Entity, dynamic: bool)
      reads reg
    {
      && m in e
      && m in reg.transforms && m in reg.colliders
      && o in reg.transforms && o in reg.colliders
      && var c := Candidate(Probe(dynamic), m, o);
         c.valid ==> e[m] <= c.time
    }

    /** `e'` has the keys of `e` and no value above its value there. */
    ghost predicate Below(e': map<Entity, real>, e: map<Entity, real>)
    {
      && e'.Keys == e.Keys
      && forall x :: x in e ==> e'[x] <= e[x]
    }

    /**
     * `construct()`: clear, give every moving collider an invalid committed
     * time, test each pair of moving colliders once and each moving collider
     * against every static one, queuing each hit earlier than the mover's
     * committed time so far and lowering the committed times, and finally
     * keep only the hits no later (within 1e-6) than the committed times of
     * their moving participants.
     */
    method Construct() returns (ghost built: seq<HitData>)
      requires Valid()
      modifies this
      ensures Valid() && Future() && events == old(events)
      ensures NoReversePairs(hitlist)
      ensures forall e :: e in earliest <==> reg.IsMoving(e)
      ensures forall e :: e in earliest ==> earliest[e] <= InvalidTime
      ensures forall h :: h in hitlist ==> Settled(h, earliest)
      // every queued hit is the prediction for its own pair
      ensures forall h :: h in hitlist ==> Predicted(h)
      // each mover's committed time is no later than any hit predicted for
      // a pair it was tested in first place, and against any static collider
      ensures forall p :: p in PairsUpTo(reg.Moving(), |reg.Moving()|) ==> Bounded(earliest, p.0, p.1, true)
      ensures forall m, o :: reg.IsMoving(m) && reg.IsFixed(o) ==> Bounded(earliest, m, o, false)
      // the queue before the cleanup: predictions only, each committed time
      // one of their times, and the cleanup keeps the settled ones
      ensures forall h :: h in built ==> Predicted(h)
      ensures Reached(earliest, built)
      ensures hitlist == SettledOnly(built, earliest)
    {
      Clear();
      var moving := reg.Moving();
      HavingDistinct(reg.entities, reg.transforms.Keys * reg.colliders.Keys * reg.motions.Keys);
      InvalidateAll(moving);
      assert Building();
      ConstructRounds(moving);
      built := hitlist;
      FinishBuild();
    }

    /**
     * The outer loop of `construct`: each moving collider against the later
     * moving ones and against every static one.
     */
    method ConstructRounds(moving: seq<Entity>)
      requires Building() && moving == reg.Moving() && Distinct(moving)
      modifies this
      ensures Building() && events == old(events)
      ensures forall p :: p in PairsUpTo(moving, |moving|) ==> Bounded(earliest, p.0, p.1, true)
      ensures forall m, o :: reg.IsMoving(m) && reg.IsFixed(o) ==> Bounded(earliest, m, o, false)
    {
      for a := 0 to |moving|
        invariant Building() && events == old(events)
        invariant forall p :: p in PairsUpTo(moving, a) ==> Bounded(earliest, p.0, p.1, true)
        invariant forall i, o :: 0 <= i < a && reg.IsFixed(o) ==> Bounded(earliest, moving[i], o, false)
      {
        ghost var before := earliest;
        ConstructRound(moving, a);
        RoundBounds(moving, a, before, earliest);
      }
    }

    /** The bounds of the first rounds survive round a and join its own. */
    lemma RoundBounds(moving: seq<Entity>, a: nat, e: map<Entity, real>, e': map<Entity, real>)
      requires a < |moving|
      requires forall p :: p in PairsUpTo(moving, a) ==> Bounded(e, p.0, p.1, true)
      requires forall i, o :: 0 <= i < a && reg.IsFixed(o) ==> Bounded(e, moving[i], o, false)
      requires Below(e', e)
      requires forall p :: p in Fan(moving[a], moving[a + 1..]) ==> Bounded(e', p.0, p.1, true)
      requires forall o :: reg.IsFixed(o) ==> Bounded(e', moving[a], o, false)
      ensures forall p :: p in PairsUpTo(moving, a + 1) ==> Bounded(e', p.0, p.1, true)
      ensures forall i, o :: 0 <= i < a + 1 && reg.IsFixed(o) ==> Bounded(e', moving[i], o, false)
    {
      assert PairsUpTo(moving, a + 1) == PairsUpTo(moving, a) + Fan(moving[a], moving[a + 1..]);
    }

    /** One round of `construct`'s outer loop, for the mover moving[a]. */
    method ConstructRound(moving: seq<Entity>, a: nat)
      requires Building() && moving == reg.Moving() && Distinct(moving) && a < |moving|
      modifies this
      ensures Building() && events == old(events)
      ensures Below(earliest, old(earliest))
      ensures forall p :: p in Fan(moving[a], moving[a + 1..]) ==> Bounded(earliest, p.0, p.1, true)
      ensures forall o :: reg.IsFixed(o) ==> Bounded(earliest, moving[a], o, false)
    {
      var temp := DefaultHit().(dynamic := true);
      temp := ConstructDynamic(moving, a, temp);
      ghost var mid := earliest;
      ConstructStatic(moving[a], temp.(dynamic := false));
      forall p | p in Fan(moving[a], moving[a + 1..]) ensures Bounded(earliest, p.0, p.1, true) {
        assert Bounded(mid, p.0, p.1, true);
      }
    }

    /** The end of `construct`: only settled hits stay queued. */
    method FinishBuild()
      requires Building()
      modifies this
      ensures Valid() && Future() && events == old(events)
      ensures NoReversePairs(hitlist)
      ensures forall e :: e in earliest <==> reg.IsMoving(e)
      ensures forall e :: e in earliest ==> earliest[e] <= InvalidTime
      ensures forall h :: h in hitlist ==> Settled(h, earliest)
      ensures forall h :: h in hitlist ==> h in old(hitlist)
      ensures hitlist == SettledOnly(old(hitlist), earliest)
      ensures earliest == old(earliest)
    {
      ghost var built := hitlist;
      Cleanup();
      SettledOnlyNoReverse(built, earliest);
    }

    /**
     * The loop of `construct` giving each moving collider an invalid
     * committed time: on the emptied queue this starts the build.
     */
    method InvalidateAll(moving: seq<Entity>)
      requires Valid() && hitlist == [] && earliest == map[]
      requires forall e :: e in moving <==> reg.IsMoving(e)
      modifies this
      ensures Building() && hitlist == [] && events == old(events)
      ensures forall e :: e in earliest ==> earliest[e] == InvalidTime
    {
      for i := 0 to |moving|
        invariant earliest.Keys == set e | e in moving[..i]
        invariant forall e :: e in earliest ==> earliest[e] == InvalidTime
        invariant hitlist == [] && events == old(events)
      {
        assert moving[..i + 1] == moving[..i] + [moving[i]];
        earliest := earliest[moving[i] := InvalidTime];
      }
      assert moving[..|moving|] == moving;
    }

    /** The loop of `construct` pairing moving[a] with the later moving colliders. */
    method ConstructDynamic(moving: seq<Entity>, a: nat, temp: HitData) returns (temp': HitData)
      requires Building() && moving == reg.Moving() && Distinct(moving) && a < |moving|
      requires temp.dynamic
      modifies this
      ensures Building() && events == old(events) && temp'.dynamic
      ensures Below(earliest, old(earliest))
      ensures forall b :: a < b < |moving| ==> Bounded(earliest, moving[a], moving[b], true)
    {
      var m := moving[a];
      temp' := temp;
      for b := a + 1 to |moving|
        invariant Building() && events == old(events) && temp'.dynamic
        invariant Below(earliest, old(earliest))
        invariant forall k :: a + 1 <= k < b ==> Bounded(earliest, m, moving[k], true)
      {
        ghost var e := earliest;
        assert Ahead(reg.Moving(), m, moving[b]) by {
          assert 0 <= a < b < |moving| && moving[a] == m;
        }
        temp' := ConstructPair(m, moving[b], temp');
        BoundsKept(e, earliest, m, moving, a + 1, b, true);
      }
    }

    /** The loop of `construct` testing the mover `m` against every static collider. */
    method ConstructStatic(m: Entity, temp: HitData)
      requires Building() && reg.IsMoving(m) && !temp.dynamic
      modifies this
      ensures Building() && events == old(events)
      ensures Below(earliest, old(earliest))
      ensures forall o :: reg.IsFixed(o) ==> Bounded(earliest, m, o, false)
    {
      var fixed := reg.Fixed();
      var t := temp;
      for j := 0 to |fixed|
        invariant Building() && events == old(events) && !t.dynamic
        invariant Below(earliest, old(earliest))
        invariant forall k :: 0 <= k < j ==> Bounded(earliest, m, fixed[k], false)
      {
        ghost var e := earliest;
        t := ConstructPair(m, fixed[j], t);
        BoundsKept(e, earliest, m, fixed, 0, j, false);
      }
    }

    /**
     * One pass of either inner loop of `construct`: `collision(temp, m,
     * other)`, queuing the hit when it is valid and earlier than m's
     * committed time. Afterwards m's committed time is no later than the
     * pair's prediction.
     */
    method ConstructPair(m: Entity, other: Entity, temp: HitData) returns (temp': HitData)
      requires Building() && reg.IsMoving(m)
      requires if temp.dynamic then Ahead(reg.Moving(), m, other) else reg.IsFixed(other)
      modifies this
      ensures Building() && events == old(events) && temp'.dynamic == temp.dynamic
      ensures Below(earliest, old(earliest))
      ensures Bounded(earliest, m, other, temp.dynamic)
    {
      if temp.dynamic {
        var i, j :| 0 <= i < j < |reg.Moving()| && reg.Moving()[i] == m && reg.Moving()[j] == other;
        assert m != other by { assert Distinct(reg.Moving()); }
      }
      temp' := Collision(temp, m, other);
      if temp'.valid && temp'.time < earliest[m] {
        PushAndLower(temp');
      }
    }

    /**
     * Bounds on m's committed time survive lowering the map, and one more
     * partner's bound joins them.
     */
    lemma BoundsKept(e: map<Entity, real>, e': map<Entity, real>, m: Entity, os: seq<Entity>, lo: nat, hi: nat, dynamic: bool)
      requires lo <= hi < |os| && Below(e', e)
      requires forall k :: lo <= k < hi ==> Bounded(e, m, os[k], dynamic)
      requires Bounded(e', m, os[hi], dynamic)
      ensures forall k :: lo <= k < hi + 1 ==> Bounded(e', m, os[k], dynamic)
    {
    }

    /**
     * The branch of `construct`'s loops that queues the hit `h`
     * (`push_to_hitlist`) and lowers its participants' committed times to
     * it (`std::min`), the second one only for a dynamic hit.
     */
    method PushAndLower(h: HitData)
      requires Building() && Queued(h) && h.time >= 0.0 && Predicted(h)
      requires h.dynamic ==> Ahead(reg.Moving(), h.entity1, h.entity2)
      modifies this
      ensures Building() && events == old(events)
      ensures hitlist == Pushed(old(hitlist), h) && hitlist == old(hitlist) + [h]
      ensures var m1 := old(earliest)[h.entity1 := Min(old(earliest)[h.entity1], h.time)];
        earliest == if h.dynamic then m1[h.entity2 := Min(old(earliest)[h.entity2], h.time)] else m1
      ensures Below(earliest, old(earliest)) && earliest[h.entity1] <= h.time
    {
      NoReverseQueued(h);
      PushedFacts(hitlist, h);
      ghost var e0, hs := earliest, hitlist;
      PushToHitlist(h);
      earliest := earliest[h.entity1 := Min(earliest[h.entity1], h.time)];
      if h.dynamic {
        earliest := earliest[h.entity2 := Min(earliest[h.entity2], h.time)];
      }
      ReachedLowered(e0, hs, h, earliest);
      QueuedAppended(hs, h);
    }

    /** The hits of a queue with `h` appended. */
    lemma QueuedAppended(hs: seq<HitData>, h: HitData)
      ensures forall g :: g in hs + [h] <==> g in hs || g == h
    {
    }

    /** Lowering a participant's committed time to a hit keeps the times reached once the hit is queued. */
    lemma ReachedLowered(e: map<Entity, real>, hs: seq<HitData>, h: HitData, e': map<Entity, real>)
      requires Reached(e, hs) && h.entity1 in e && (h.dynamic ==> h.entity2 in e)
      requires var m1 := e[h.entity1 := Min(e[h.entity1], h.time)];
        e' == if h.dynamic then m1[h.entity2 := Min(e[h.entity2], h.time)] else m1
      ensures Reached(e', hs + [h])
      ensures Below(e', e) && e'[h.entity1] <= h.time
    {
      var hs' := hs + [h];
      assert h in hs';
      forall x | x in e' && e'[x] != InvalidTime
        ensures exists g :: g in hs' && Involves(g, x) && g.time == e'[x]
      {
        if e'[x] == h.time && Involves(h, x) {
        } else {
          assert e'[x] == e[x];
          var g :| g in hs && Involves(g, x) && g.time == e[x];
          assert g in hs';
        }
      }
    }

    /**
     * While `construct` builds, a hit it is about to queue has no reverse in
     * the queue: a static hit's entity2 never heads a queued hit, and a
     * dynamic one's pair is queued in view order only.
     */
    lemma NoReverseQueued(h: HitData)
      requires Building() && Queued(h)
      requires h.dynamic ==> Ahead(reg.Moving(), h.entity1, h.entity2)
      ensures !HasReverse(hitlist, h)
    {
      if HasReverse(hitlist, h) {
        var p :| p in hitlist && p.entity1 == h.entity2 && p.entity2 == h.entity1;
        assert Queued(p);
        if h.dynamic && p.dynamic {
          AheadOneWay(reg.Moving(), h.entity1, h.entity2);
        }
      }
    }

    /** The cleanup loop of `construct`. */
    method Cleanup()
      requires forall h :: h in hitlist ==> h.entity1 in earliest && (h.dynamic ==> h.entity2 in earliest)
      modifies this
      ensures hitlist == SettledOnly(old(hitlist), earliest)
      ensures earliest == old(earliest) && events == old(events)
    {
      var kept := [];
      for i := 0 to |hitlist|
        invariant kept == SettledOnly(hitlist[..i], earliest)
      {
        var it := hitlist[i];
        assert hitlist[..i + 1][..i] == hitlist[..i];
        assert it in hitlist;
        var t := it.time - 0.000001;
        if it.dynamic {
          if t <= earliest[it.entity1] && t <= earliest[it.entity2] {
            kept := kept + [it];
          }
        } else {
          if t <= earliest[it.entity1] {
            kept := kept + [it];
          }
        }
      }
      assert hitlist[..|hitlist|] == hitlist;
      hitlist := kept;
    }
  }
}
