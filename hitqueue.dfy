/**
 * Pure functions over the engine's hit queue (`m_hitlist`) and its
 * earliest-time map (`m_earliest`) that the engine's methods are proved
 * against: filtering an entity out, the reverse-pair rule of
 * `push_to_hitlist`, rebasing times, picking the next hit, the pair schedule
 * of `construct`, its cleanup rule and the invalidation cascade of
 * `calculate_collision`.
 */
module HitQueue {
  import opened Wrappers
  import opened Physics2DComponents

  predicate Involves(h: HitData, e: Entity)
  {
    h.entity1 == e || h.entity2 == e
  }

  // ------------------------------------------------------------ delete_entity

  /** The queue without the hits that involve `e`, in order. */
  function WithoutEntity(hs: seq<HitData>, e: Entity): (r: seq<HitData>)
    ensures forall h :: h in r <==> h in hs && !Involves(h, e)
    ensures |r| <= |hs|
  {
    if |hs| == 0 then []
    else WithoutEntity(hs[..|hs| - 1], e) + (if Involves(hs[|hs| - 1], e) then [] else [hs[|hs| - 1]])
  }

  /** Removing an entity works piecewise, so the kept hits stay in their order. */
  lemma {:induction false} WithoutEntityConcat(a: seq<HitData>, b: seq<HitData>, e: Entity)
    ensures WithoutEntity(a + b, e) == WithoutEntity(a, e) + WithoutEntity(b, e)
    decreases |b|
  {
    if |b| == 0 {
      assert a + b == a;
    } else {
      var b' := b[..|b| - 1];
      assert (a + b)[..|a + b| - 1] == a + b';
      assert (a + b)[|a + b| - 1] == b[|b| - 1];
      WithoutEntityConcat(a, b', e);
    }
  }

  /** A queue with no hit of `e` is unchanged. */
  lemma {:induction false} WithoutEntityNone(a: seq<HitData>, e: Entity)
    requires forall h :: h in a ==> !Involves(h, e)
    ensures WithoutEntity(a, e) == a
  {
    if |a| > 0 {
      var init, last := a[..|a| - 1], a[|a| - 1];
      assert !Involves(last, e) by { assert last in a; }
      forall h | h in init
        ensures !Involves(h, e)
      {
        var i :| 0 <= i < |init| && init[i] == h;
        assert a[i] == h;
      }
      WithoutEntityNone(init, e);
      assert init + [last] == a;
    }
  }

  // ----------------------------------------------------------- push_to_hitlist

  /** Some queued hit is the reverse pair (entity2, entity1) of `h`. */
  predicate HasReverse(hs: seq<HitData>, h: HitData)
  {
    exists p :: p in hs && p.entity1 == h.entity2 && p.entity2 == h.entity1
  }

  /** The queue after `push_to_hitlist(h)`. */
  function Pushed(hs: seq<HitData>, h: HitData): (r: seq<HitData>)
  {
    if !h.valid || HasReverse(hs, h) then hs else hs + [h]
  }

  /** No two different queue slots hold a pair and its reverse. */
  ghost predicate NoReversePairs(hs: seq<HitData>)
  {
    forall i, j :: 0 <= i < |hs| && 0 <= j < |hs| && i != j ==>
      !(hs[i].entity1 == hs[j].entity2 && hs[i].entity2 == hs[j].entity1)
  }

  /**
   * `push_to_hitlist` skips invalid hits and reverse pairs and otherwise
   * appends exactly the hit; it never lets a pair and its reverse into the
   * queue, while a second hit in the same direction is accepted.
   */
  lemma PushedFacts(hs: seq<HitData>, h: HitData)
    ensures var r := Pushed(hs, h);
      && (r == hs <==> !h.valid || HasReverse(hs, h))
      && (r != hs ==> r == hs + [h])
      && (NoReversePairs(hs) ==> NoReversePairs(r))
      && (h.valid && h in hs && h.entity1 != h.entity2 && !HasReverse(hs, h) ==> r == hs + [h])
  {
    var r := Pushed(hs, h);
    if r != hs {
      assert |r| == |hs| + 1;
      if NoReversePairs(hs) {
        forall i, j | 0 <= i < |r| && 0 <= j < |r| && i != j
          ensures !(r[i].entity1 == r[j].entity2 && r[i].entity2 == r[j].entity1)
        {
          if i == |hs| {
            assert r[j] in hs;
          } else if j == |hs| {
            assert r[i] in hs;
          }
        }
      }
    }
  }

  // ---------------------------------------------------------------- rebasing

  /** Every queued time moved `dt` closer: the loops `time -= dt`. */
  function Shifted(hs: seq<HitData>, dt: real): (r: seq<HitData>)
    ensures |r| == |hs|
  {
    seq(|hs|, i requires 0 <= i < |hs| => hs[i].(time := hs[i].time - dt))
  }

  /** Every earliest time moved `dt` closer. */
  function Rebased(m: map<Entity, real>, dt: real): (r: map<Entity, real>)
    ensures r.Keys == m.Keys
  {
    map e | e in m :: m[e] - dt
  }

  /**
   * Shifting changes only times, keeps the queue's order of times and the
   * hits' differences in time, and shifting by a then b is shifting by a + b.
   */
  lemma ShiftedFacts(hs: seq<HitData>, a: real, b: real)
    ensures forall i :: 0 <= i < |hs| ==>
      Shifted(hs, a)[i].(time := hs[i].time) == hs[i] && Shifted(hs, a)[i].time == hs[i].time - a
    ensures forall i, j :: 0 <= i < |hs| && 0 <= j < |hs| ==>
      Shifted(hs, a)[i].time - Shifted(hs, a)[j].time == hs[i].time - hs[j].time
    ensures Shifted(Shifted(hs, a), b) == Shifted(hs, a + b)
    ensures Shifted(hs, 0.0) == hs
  {
  }

  /** Shifting by dt lowers every bound on the queued times by dt. */
  lemma ShiftedFloor(hs: seq<HitData>, dt: real, lo: real)
    ensures (forall h :: h in hs ==> h.time >= lo) ==> forall h :: h in Shifted(hs, dt) ==> h.time >= lo - dt
    ensures (forall h :: h in hs ==> h.time > lo) ==> forall h :: h in Shifted(hs, dt) ==> h.time > lo - dt
  {
    forall h | h in Shifted(hs, dt) ensures exists g :: g in hs && h.time == g.time - dt {
      var k :| 0 <= k < |hs| && Shifted(hs, dt)[k] == h;
      assert hs[k] in hs;
    }
  }

  /** The participants of `h` marked as having no committed collision. */
  function Invalidated(m: map<Entity, real>, h: HitData): (r: map<Entity, real>)
    ensures r.Keys == m.Keys + {h.entity1} + (if h.dynamic then {h.entity2} else {})
    ensures r[h.entity1] == InvalidTime
    ensures h.dynamic ==> r[h.entity2] == InvalidTime
    ensures forall e :: e in m && !(e == h.entity1 || (h.dynamic && e == h.entity2)) ==> r[e] == m[e]
  {
    var m1 := m[h.entity1 := InvalidTime];
    if h.dynamic then m1[h.entity2 := InvalidTime] else m1
  }

  // ------------------------------------------------------------ the next hit

  /**
   * The slot the queue pops next: the first hit of least time (what a
   * binary heap keyed on time yields when it is intact).
   */
  function EarliestIndex(hs: seq<HitData>): (k: nat)
    requires |hs| > 0
    ensures k < |hs|
    ensures forall j :: 0 <= j < |hs| ==> hs[k].time <= hs[j].time
    ensures forall j :: 0 <= j < k ==> hs[j].time > hs[k].time
  {
    if |hs| == 1 then 0
    else
      var k := EarliestIndex(hs[..|hs| - 1]);
      if hs[|hs| - 1].time < hs[k].time then |hs| - 1 else k
  }

  /** The queue with slot k taken out. */
  function RemoveAt(hs: seq<HitData>, k: nat): (r: seq<HitData>)
    requires k < |hs|
    ensures |r| == |hs| - 1
    ensures forall h :: h in r ==> h in hs
    ensures multiset(r) + multiset{hs[k]} == multiset(hs)
  {
    assert hs == hs[..k] + [hs[k]] + hs[k + 1..];
    hs[..k] + hs[k + 1..]
  }

  // ---------------------------------------------------------------- construct

  /** The pairs (x, ys[0]), (x, ys[1]), ... */
  function Fan(x: Entity, ys: seq<Entity>): (r: seq<(Entity, Entity)>)
    ensures |r| == |ys|
    ensures forall k :: 0 <= k < |ys| ==> r[k] == (x, ys[k])
  {
    seq(|ys|, k requires 0 <= k < |ys| => (x, ys[k]))
  }

  /**
   * The pairs `construct` tests in its first i outer rounds: round i pairs
   * d[i] with every later entity (the inner view starts at `counter = i + 1`).
   */
  function PairsUpTo(d: seq<Entity>, i: nat): seq<(Entity, Entity)>
    requires i <= |d|
  {
    if i == 0 then [] else PairsUpTo(d, i - 1) + Fan(d[i - 1], d[i..])
  }

  /**
   * The pairs tested are exactly the (d[a], d[b]) with a < b among the
   * first i rounds.
   */
  lemma {:induction false} PairsUpToMembers(d: seq<Entity>, i: nat)
    requires i <= |d|
    ensures forall x, y :: (x, y) in PairsUpTo(d, i) <==>
      exists a, b :: 0 <= a < i && a < b < |d| && d[a] == x && d[b] == y
  {
    if i > 0 {
      PairsUpToMembers(d, i - 1);
      var f := Fan(d[i - 1], d[i..]);
      assert PairsUpTo(d, i) == PairsUpTo(d, i - 1) + f;
      forall x, y
        ensures (x, y) in PairsUpTo(d, i) <==>
          exists a, b :: 0 <= a < i && a < b < |d| && d[a] == x && d[b] == y
      {
        if (x, y) in f {
          var k :| 0 <= k < |f| && f[k] == (x, y);
          assert 0 <= i - 1 < i && i - 1 < i + k < |d| && d[i - 1] == x && d[i + k] == y;
        }
        if exists a, b :: 0 <= a < i && a < b < |d| && d[a] == x && d[b] == y {
          var a, b :| 0 <= a < i && a < b < |d| && d[a] == x && d[b] == y;
          if a == i - 1 {
            assert f[b - i] == (x, y);
          }
        }
      }
    }
  }

  /** After all |d| rounds, n(n-1)/2 pairs have been tested. */
  lemma {:induction false} PairsUpToCount(d: seq<Entity>, i: nat)
    requires i <= |d|
    ensures 2 * |PairsUpTo(d, i)| == i * (2 * |d| - i - 1)
  {
    if i > 0 {
      PairsUpToCount(d, i - 1);
      var n := |d|;
      calc {
        2 * |PairsUpTo(d, i)|;
        2 * |PairsUpTo(d, i - 1)| + 2 * (n - i);
        (i - 1) * (2 * n - (i - 1) - 1) + 2 * (n - i);
        i * (2 * n - i - 1);
      }
    }
  }

  /**
   * Over distinct entities each unordered pair is tested in one direction
   * only, and never an entity with itself.
   */
  lemma PairsOnce(d: seq<Entity>, x: Entity, y: Entity)
    requires forall a, b :: 0 <= a < b < |d| ==> d[a] != d[b]
    requires (x, y) in PairsUpTo(d, |d|)
    ensures x != y && (y, x) !in PairsUpTo(d, |d|)
  {
    PairsUpToMembers(d, |d|);
    var a, b :| 0 <= a < |d| && a < b < |d| && d[a] == x && d[b] == y;
    forall a', b' | 0 <= a' < b' < |d| ensures !(d[a'] == y && d[b'] == x) {
      if a' != b { assert d[a'] != d[b] by { if a' < b { } else { } } }
      else if b' != a { assert d[b'] != d[a] by { if b' < a { } else { } } }
    }
  }

  /** `operator[]` on the earliest map: a missing key reads as 0. */
  function Get(m: map<Entity, real>, e: Entity): real
  {
    if e in m then m[e] else 0.0
  }

  /**
   * The map after `operator[]` has read each key of `keys`: a key that was
   * missing is inserted with value 0, nothing else changes.
   */
  function WithDefaults(m: map<Entity, real>, keys: set<Entity>): (r: map<Entity, real>)
    ensures r.Keys == m.Keys + keys
    ensures forall e :: e in m ==> r[e] == m[e]
    ensures forall e :: e in keys && e !in m ==> r[e] == 0.0
    ensures forall e :: Get(r, e) == Get(m, e)
  {
    map e | e in m.Keys + keys :: Get(m, e)
  }

  /** Defaulting one more key inserts 0 for it unless it is already present. */
  lemma WithDefaultsInsert(m: map<Entity, real>, keys: set<Entity>, k: Entity)
    ensures var r := WithDefaults(m, keys);
      WithDefaults(m, keys + {k}) == if k in r then r else r[k := 0.0]
  {
  }

  /**
   * The cleanup rule of `construct`: a hit survives if its time, less a
   * margin of 1e-6, is no later than the earliest time of its moving
   * participants.
   */
  predicate Settled(h: HitData, m: map<Entity, real>)
  {
    var t := h.time - 0.000001;
    if h.dynamic then t <= Get(m, h.entity1) && t <= Get(m, h.entity2)
    else t <= Get(m, h.entity1)
  }

  /** The queue after the cleanup loop of `construct`. */
  function SettledOnly(hs: seq<HitData>, m: map<Entity, real>): (r: seq<HitData>)
    ensures forall h :: h in r <==> h in hs && Settled(h, m)
    ensures |r| <= |hs|
  {
    if |hs| == 0 then []
    else SettledOnly(hs[..|hs| - 1], m) + (if Settled(hs[|hs| - 1], m) then [hs[|hs| - 1]] else [])
  }

  /** The cleanup keeps the queue free of a pair and its reverse. */
  lemma {:induction false} SettledOnlyNoReverse(hs: seq<HitData>, m: map<Entity, real>)
    requires NoReversePairs(hs)
    ensures NoReversePairs(SettledOnly(hs, m))
  {
    if |hs| > 0 {
      var init, last := hs[..|hs| - 1], hs[|hs| - 1];
      assert NoReversePairs(init) by {
        forall i, j | 0 <= i < |init| && 0 <= j < |init| && i != j
          ensures !(init[i].entity1 == init[j].entity2 && init[i].entity2 == init[j].entity1)
        {
          assert init[i] == hs[i] && init[j] == hs[j];
        }
      }
      SettledOnlyNoReverse(init, m);
      var r0 := SettledOnly(init, m);
      if Settled(last, m) {
        var r := r0 + [last];
        forall i, j | 0 <= i < |r| && 0 <= j < |r| && i != j
          ensures !(r[i].entity1 == r[j].entity2 && r[i].entity2 == r[j].entity1)
        {
          if i == |r0| {
            assert r[j] in init;
            var b :| 0 <= b < |init| && init[b] == r[j];
            assert hs[b] == r[j] && hs[|hs| - 1] == r[i];
          } else if j == |r0| {
            assert r[i] in init;
            var a :| 0 <= a < |init| && init[a] == r[i];
            assert hs[a] == r[i] && hs[|hs| - 1] == r[j];
          } else {
            assert r[i] == r0[i] && r[j] == r0[j];
          }
        }
      }
    }
  }

  // ------------------------------------------------- calculate_collision cascade

  /**
   * After committing the dynamic hit `sel`, a queued hit is stale if the
   * partner `sel.entity2` is its first entity, or its second entity with
   * a first entity other than `sel.entity1`.
   */
  predicate IsVictim(h: HitData, sel: HitData)
  {
    h.entity1 == sel.entity2 || (h.entity2 == sel.entity2 && h.entity1 != sel.entity1)
  }

  /** The entity a stale hit leaves without a partner, if it moves. */
  function Orphan(h: HitData, sel: HitData): Option<Entity>
  {
    if h.entity1 == sel.entity2 then (if h.dynamic then Some(h.entity2) else None)
    else Some(h.entity1)
  }

  /** The queue without the stale hits, in order. */
  function Survivors(hs: seq<HitData>, sel: HitData): (r: seq<HitData>)
    ensures forall h :: h in r <==> h in hs && !IsVictim(h, sel)
    ensures |r| <= |hs|
  {
    if |hs| == 0 then []
    else Survivors(hs[..|hs| - 1], sel) + (if IsVictim(hs[|hs| - 1], sel) then [] else [hs[|hs| - 1]])
  }

  /** The orphans of the stale hits, in queue order. */
  function Orphans(hs: seq<HitData>, sel: HitData): (r: seq<Entity>)
    ensures forall o :: o in r <==> exists h :: h in hs && IsVictim(h, sel) && Orphan(h, sel) == Some(o)
  {
    if |hs| == 0 then []
    else
      var h := hs[|hs| - 1];
      assert forall g :: g in hs <==> g in hs[..|hs| - 1] || g == h;
      Orphans(hs[..|hs| - 1], sel)
        + (if IsVictim(h, sel) && Orphan(h, sel).Some? then [Orphan(h, sel).value] else [])
  }

  /** The survivors and orphans of a prefix grow by what the next hit contributes. */
  lemma StaleStep(hs: seq<HitData>, i: nat, sel: HitData)
    requires i < |hs|
    ensures Survivors(hs[..i + 1], sel) == Survivors(hs[..i], sel) + (if IsVictim(hs[i], sel) then [] else [hs[i]])
    ensures Orphans(hs[..i + 1], sel) == Orphans(hs[..i], sel)
      + (if IsVictim(hs[i], sel) && Orphan(hs[i], sel).Some? then [Orphan(hs[i], sel).value] else [])
  {
    assert hs[..i + 1][..i] == hs[..i];
  }

  /**
   * The loop of `calculate_collision` that walks the queue after the
   * dynamic hit `sel` is committed: the hits that stay, and the entities
   * the stale ones leave without a partner.
   */
  method SplitStale(queue: seq<HitData>, sel: HitData) returns (kept: seq<HitData>, orphans: seq<Entity>)
    ensures kept == Survivors(queue, sel)
    ensures orphans == Orphans(queue, sel)
  {
    kept, orphans := [], [];
    for i := 0 to |queue|
      invariant kept == Survivors(queue[..i], sel)
      invariant orphans == Orphans(queue[..i], sel)
    {
      var it := queue[i];
      StaleStep(queue, i, sel);
      if it.entity1 == sel.entity2 {
        if it.dynamic {
          orphans := orphans + [it.entity2];
        }
      } else if it.entity2 == sel.entity2 {
        if it.entity1 == sel.entity1 {
          kept := kept + [it];
          continue;
        }
        orphans := orphans + [it.entity1];
      } else {
        kept := kept + [it];
      }
    }
    assert queue[..|queue|] == queue;
  }

  /**
   * After the cascade the partner `sel.entity2` keeps no hit except ones
   * with `sel.entity1` as first entity (the committed hit among them), and
   * the committed hit survives.
   */
  lemma SurvivorsFacts(hs: seq<HitData>, sel: HitData)
    requires sel.entity1 != sel.entity2
    ensures forall h :: h in Survivors(hs, sel) && Involves(h, sel.entity2) ==>
      h.entity1 == sel.entity1 && h.entity2 == sel.entity2
    ensures sel in hs ==> sel in Survivors(hs, sel)
  {
  }

  /**
   * The cascade scan as written: after `erase(it)` the iterator refers to
   * the following hit, so the orphan is read from that hit (and a scan
   * that erases the last hit would read past the end, where this model
   * stops), and the loop's `it++` then skips it. The recursive
   * `calculate_collision` calls are left out of this scan.
   */
  function ScanAsWritten(hs: seq<HitData>, sel: HitData, i: nat, orphans: seq<Entity>): (r: (seq<HitData>, seq<Entity>))
    ensures |r.0| <= |hs| && orphans <= r.1
    ensures forall h :: h in r.0 ==> h in hs
    decreases |hs| - i
  {
    if i >= |hs| then (hs, orphans)
    else
      var h := hs[i];
      if h.entity1 == sel.entity2 then
        var rest := hs[..i] + hs[i + 1..];
        if i < |rest| then
          ScanAsWritten(rest, sel, i + 1, orphans + (if rest[i].dynamic then [rest[i].entity2] else []))
        else (rest, orphans)
      else if h.entity2 == sel.entity2 then
        if h.entity1 == sel.entity1 then ScanAsWritten(hs, sel, i + 1, orphans)
        else
          var rest := hs[..i] + hs[i + 1..];
          if i < |rest| then ScanAsWritten(rest, sel, i + 1, orphans + [rest[i].entity1])
          else (rest, orphans)
      else ScanAsWritten(hs, sel, i + 1, orphans)
  }

  /**
   * A queue on which the scan as written goes wrong. Committing (1, 2) over
   * [(1, 2), (2, 3), (4, 2)] should drop both stale hits and orphan 3 and 4;
   * as written it keeps the stale (4, 2), orphans the partner 2 itself and
   * never orphans 3 or 4.
   */
  lemma ScanAsWrittenCounterexample()
    ensures var sel := HitData(1, 2, 1.0, Geometry.Zero2, true, true);
      var stale1 := HitData(2, 3, 2.0, Geometry.Zero2, true, true);
      var stale2 := HitData(4, 2, 3.0, Geometry.Zero2, true, true);
      var hs := [sel, stale1, stale2];
      && ScanAsWritten(hs, sel, 0, []) == ([sel, stale2], [2])
      && Survivors(hs, sel) == [sel]
      && Orphans(hs, sel) == [3, 4]
  {
    var sel := HitData(1, 2, 1.0, Geometry.Zero2, true, true);
    var stale1 := HitData(2, 3, 2.0, Geometry.Zero2, true, true);
    var stale2 := HitData(4, 2, 3.0, Geometry.Zero2, true, true);
    var hs := [sel, stale1, stale2];
    var rest := [sel, stale2];
    assert hs[..1] + hs[2..] == rest;
    calc {
      ScanAsWritten(hs, sel, 0, []);
      ScanAsWritten(hs, sel, 1, []);
      ScanAsWritten(hs[..1] + hs[2..], sel, 2, [] + (if rest[1].dynamic then [rest[1].entity2] else []));
      { assert [] + [2] == [2]; }
      ScanAsWritten(rest, sel, 2, [2]);
      (rest, [2]);
    }
    assert hs[..2] == [sel, stale1] && hs[..2][..1] == [sel] && [sel][..0] == [];
    calc {
      Survivors(hs, sel);
      Survivors([sel, stale1], sel);
      Survivors([sel], sel);
      Survivors([], sel) + [sel];
      [sel];
    }
    calc {
      Orphans(hs, sel);
      Orphans([sel, stale1], sel) + [4];
      Orphans([sel], sel) + [3] + [4];
      Orphans([], sel) + [3] + [4];
      [3, 4];
    }
  }
}
