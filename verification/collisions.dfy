/** The collision bookkeeping of the physics engine's move stage: a map from entity id
    to the set of ids it is currently recorded as colliding with, updated once for every
    ordered pair of entities visited in a tick, emitting a collision-start when a pair
    becomes recorded and a collision-stop when it stops being recorded.

    The overlap test itself (Entity.collides, run after the entity's Euler step) is an
    input: a verdict for each ORDERED visit, because the outer entity has already moved
    when it is compared and the inner one may not have, so (a, b) and (b, a) can differ
    within one tick. */
module Collisions {
  import opened Wrappers

  type EntityId = int

  /** currentCollisions. */
  type Tracker = map<EntityId, set<EntityId>>

  /** The observer callbacks, with the entities named by id (outer entity first). */
  datatype CollisionEvent = Start(first: EntityId, second: EntityId) | Stop(first: EntityId, second: EntityId)

  /** a records b exactly when b records a. */
  ghost predicate Symmetric(t: Tracker) {
    forall a, b :: a in t && b in t[a] ==> b in t && a in t[b]
  }

  /** No entity is recorded as colliding with itself. */
  ghost predicate Irreflexive(t: Tracker) {
    forall a :: a in t ==> a !in t[a]
  }

  /** The pair {a, b} is recorded on both sides when `v`, on neither side otherwise. */
  predicate Settled(t: Tracker, a: EntityId, b: EntityId, v: bool)
    requires a in t && b in t
  {
    (b in t[a]) == v && (a in t[b]) == v
  }

  /** The event concerns the unordered pair {a, b}. */
  predicate OnPair(e: CollisionEvent, a: EntityId, b: EntityId) {
    (e.first == a && e.second == b) || (e.first == b && e.second == a)
  }

  datatype VisitResult = VisitResult(tracker: Tracker, event: Option<CollisionEvent>)

  /** One iteration of the inner loop of stageMove: the outer entity `a` against `b`. */
  function Visit(t: Tracker, a: EntityId, b: EntityId, overlaps: bool): (r: VisitResult)
    requires a in t && b in t
    ensures r.tracker.Keys == t.Keys
    // an entity is never compared with itself
    ensures a == b ==> r == VisitResult(t, None)
    // an overlapping visit records the pair on both sides, a separated one on neither
    ensures a != b ==> Settled(r.tracker, a, b, overlaps)
    // start only on a fresh record, stop only when a record existed
    ensures r.event == Some(Start(a, b)) <==> a != b && overlaps && !(b in t[a] && a in t[b])
    ensures r.event == Some(Stop(a, b)) <==> a != b && !overlaps && (b in t[a] || a in t[b])
    ensures r.event.Some? ==> r.event == Some(Start(a, b)) || r.event == Some(Stop(a, b))
    // nothing else changes
    ensures forall k :: k in t && k != a && k != b ==> r.tracker[k] == t[k]
    ensures a != b ==> r.tracker[a] - {b} == t[a] - {b} && r.tracker[b] - {a} == t[b] - {a}
  {
    if a == b then VisitResult(t, None)
    else if overlaps then
      var startedAB := b !in t[a];
      var startedBA := a !in t[b];
      var t1 := t[a := t[a] + {b}];
      var t2 := t1[b := t1[b] + {a}];
      VisitResult(t2, if startedAB || startedBA then Some(Start(a, b)) else None)
    else
      var hadAB := b in t[a];
      var hadBA := a in t[b];
      var t1 := t[a := t[a] - {b}];
      var t2 := t1[b := t1[b] - {a}];
      VisitResult(t2, if hadAB || hadBA then Some(Stop(a, b)) else None)
  }

  /** A visit keeps the map symmetric and free of self-records. */
  lemma VisitPreservesInvariant(t: Tracker, a: EntityId, b: EntityId, overlaps: bool)
    requires a in t && b in t
    requires Symmetric(t) && Irreflexive(t)
    ensures Symmetric(Visit(t, a, b, overlaps).tracker)
    ensures Irreflexive(Visit(t, a, b, overlaps).tracker)
  {
    var r := Visit(t, a, b, overlaps).tracker;
    forall x, y | x in r && y in r[x]
      ensures y in r && x in r[y]
    {
      if a != b && ((x == a && y == b) || (x == b && y == a)) {
      } else {
        assert y in t[x];
      }
    }
  }

  /** With the same verdict, the mirror visit (b, a) that follows (a, b) finds the pair
      already settled: it emits nothing and changes nothing. */
  lemma MirrorVisitIsSilent(t: Tracker, a: EntityId, b: EntityId, overlaps: bool)
    requires a in t && b in t
    ensures var r1 := Visit(t, a, b, overlaps);
            var r2 := Visit(r1.tracker, b, a, overlaps);
            r2.event == None && r2.tracker == r1.tracker
  {
  }

  /** The ordered visits of one tick: every entity (outer loop) against every entity
      (inner loop), both loops walking the same entity map in the same order. */
  function Row(a: EntityId, ids: seq<EntityId>): (vs: seq<(EntityId, EntityId)>)
    ensures |vs| == |ids|
    ensures forall j :: 0 <= j < |ids| ==> vs[j] == (a, ids[j])
  {
    if ids == [] then [] else [(a, ids[0])] + Row(a, ids[1..])
  }

  function OrderedVisits(outer: seq<EntityId>, ids: seq<EntityId>): (vs: seq<(EntityId, EntityId)>)
    ensures forall p :: p in vs <==> p.0 in outer && p.1 in ids
  {
    if outer == [] then []
    else
      var row := Row(outer[0], ids);
      assert forall p :: p in row <==> p.0 == outer[0] && p.1 in ids by {
        forall p: (EntityId, EntityId) | p.0 == outer[0] && p.1 in ids ensures p in row {
          var j :| 0 <= j < |ids| && ids[j] == p.1;
          assert row[j] == p;
        }
      }
      row + OrderedVisits(outer[1..], ids)
  }

  datatype SweepResult = SweepResult(tracker: Tracker, events: seq<CollisionEvent>)

  predicate Covers(t: Tracker, vs: seq<(EntityId, EntityId)>) {
    forall p :: p in vs ==> p.0 in t && p.1 in t
  }

  /** The visits of a tick in order, each emitting at most one event. */
  function Sweep(t: Tracker, vs: seq<(EntityId, EntityId)>, overlaps: (EntityId, EntityId) -> bool): (r: SweepResult)
    requires Covers(t, vs)
    ensures r.tracker.Keys == t.Keys
    ensures forall e :: e in r.events ==> e.first != e.second && (e.first, e.second) in vs
    decreases |vs|
  {
    if vs == [] then SweepResult(t, [])
    else
      var v := Visit(t, vs[0].0, vs[0].1, overlaps(vs[0].0, vs[0].1));
      var rest := Sweep(v.tracker, vs[1..], overlaps);
      SweepResult(rest.tracker, (if v.event.Some? then [v.event.value] else []) + rest.events)
  }

  /** The entity map's keys: no id twice. */
  predicate Distinct(ids: seq<EntityId>) {
    forall i, j :: 0 <= i < j < |ids| ==> ids[i] != ids[j]
  }

  /** stageMove's collision pass over the entities, in the entity map's iteration order:
      every live entity against every live entity. */
  function MoveStage(t: Tracker, ids: seq<EntityId>, overlaps: (EntityId, EntityId) -> bool): (r: SweepResult)
    requires Distinct(ids)
    requires forall i :: i in ids ==> i in t
    ensures r.tracker.Keys == t.Keys
    ensures forall e :: e in r.events ==> e.first != e.second && e.first in ids && e.second in ids
    ensures forall k :: k in t && k !in ids ==> r.tracker[k] == t[k]
    ensures Symmetric(t) && Irreflexive(t) ==> Symmetric(r.tracker) && Irreflexive(r.tracker)
  {
    var vs := OrderedVisits(ids, ids);
    assert Covers(t, vs) by {
      forall p | p in vs ensures p.0 in t && p.1 in t {
        var (x, y) := p;
        assert x in ids && y in ids;
      }
    }
    InvariantHeldThroughSweep(t, vs, overlaps);
    SweepKeepsUnvisited(t, vs, overlaps);
    Sweep(t, vs, overlaps)
  }

  lemma InvariantHeldThroughSweep(t: Tracker, vs: seq<(EntityId, EntityId)>, overlaps: (EntityId, EntityId) -> bool)
    requires Covers(t, vs)
    ensures Symmetric(t) && Irreflexive(t)
            ==> Symmetric(Sweep(t, vs, overlaps).tracker) && Irreflexive(Sweep(t, vs, overlaps).tracker)
  {
    if Symmetric(t) && Irreflexive(t) {
      SweepPreservesInvariant(t, vs, overlaps);
    }
  }

  /** An entry no visit touches keeps its set. */
  lemma {:induction false} SweepKeepsUnvisited(t: Tracker, vs: seq<(EntityId, EntityId)>, overlaps: (EntityId, EntityId) -> bool)
    requires Covers(t, vs)
    ensures forall k :: k in t && (forall p :: p in vs ==> p.0 != k && p.1 != k)
                        ==> Sweep(t, vs, overlaps).tracker[k] == t[k]
    decreases |vs|
  {
    if vs != [] {
      var v := Visit(t, vs[0].0, vs[0].1, overlaps(vs[0].0, vs[0].1));
      SweepKeepsUnvisited(v.tracker, vs[1..], overlaps);
      forall k | k in t && (forall p :: p in vs ==> p.0 != k && p.1 != k)
        ensures Sweep(t, vs, overlaps).tracker[k] == t[k]
      {
        assert vs[0] in vs;
        assert forall p :: p in vs[1..] ==> p in vs;
      }
    }
  }

  /** A whole tick keeps the map symmetric and free of self-records. */
  lemma {:induction false} SweepPreservesInvariant(t: Tracker, vs: seq<(EntityId, EntityId)>, overlaps: (EntityId, EntityId) -> bool)
    requires Covers(t, vs)
    requires Symmetric(t) && Irreflexive(t)
    ensures Symmetric(Sweep(t, vs, overlaps).tracker)
    ensures Irreflexive(Sweep(t, vs, overlaps).tracker)
    decreases |vs|
  {
    if vs != [] {
      VisitPreservesInvariant(t, vs[0].0, vs[0].1, overlaps(vs[0].0, vs[0].1));
      var v := Visit(t, vs[0].0, vs[0].1, overlaps(vs[0].0, vs[0].1));
      SweepPreservesInvariant(v.tracker, vs[1..], overlaps);
    }
  }

  /** The events on {a, b} among `es`, in order. */
  function PairEvents(es: seq<CollisionEvent>, a: EntityId, b: EntityId): (r: seq<CollisionEvent>)
    ensures forall e :: e in r <==> e in es && OnPair(e, a, b)
  {
    if es == [] then []
    else (if OnPair(es[0], a, b) then [es[0]] else []) + PairEvents(es[1..], a, b)
  }

  lemma PairEventsAppend(x: seq<CollisionEvent>, y: seq<CollisionEvent>, a: EntityId, b: EntityId)
    ensures PairEvents(x + y, a, b) == PairEvents(x, a, b) + PairEvents(y, a, b)
  {
    if x != [] {
      assert (x + y)[0] == x[0];
      assert (x + y)[1..] == x[1..] + y;
      PairEventsAppend(x[1..], y, a, b);
    } else {
      assert x + y == y;
    }
  }

  /** A visit of any other pair leaves the records of {a, b} alone and says nothing about it. */
  lemma OtherVisitKeepsPair(t: Tracker, x: EntityId, y: EntityId, ov: bool, a: EntityId, b: EntityId)
    requires x in t && y in t && a in t && b in t && a != b
    requires (x, y) != (a, b) && (x, y) != (b, a)
    ensures var r := Visit(t, x, y, ov);
            (b in r.tracker[a] <==> b in t[a]) && (a in r.tracker[b] <==> a in t[b])
            && (r.event.Some? ==> !OnPair(r.event.value, a, b))
  {
  }

  /** Once {a, b} is settled on the verdict that every visit of the pair gets, the rest
      of the tick emits nothing about the pair and leaves it settled. */
  lemma {:induction false} SettledPairIsSilent(t: Tracker, vs: seq<(EntityId, EntityId)>,
                                               overlaps: (EntityId, EntityId) -> bool,
                                               a: EntityId, b: EntityId, v: bool)
    requires Covers(t, vs) && a in t && b in t && a != b
    requires overlaps(a, b) == v && overlaps(b, a) == v
    requires Settled(t, a, b, v)
    ensures var r := Sweep(t, vs, overlaps);
            Settled(r.tracker, a, b, v) && PairEvents(r.events, a, b) == []
    decreases |vs|
  {
    if vs != [] {
      var x, y := vs[0].0, vs[0].1;
      var h := Visit(t, x, y, overlaps(x, y));
      if (x, y) != (a, b) && (x, y) != (b, a) {
        OtherVisitKeepsPair(t, x, y, overlaps(x, y), a, b);
      }
      SettledPairIsSilent(h.tracker, vs[1..], overlaps, a, b, v);
      var hd := if h.event.Some? then [h.event.value] else [];
      PairEventsAppend(hd, Sweep(h.tracker, vs[1..], overlaps).events, a, b);
    }
  }

  /** The central property of the tracker: when both ordered visits of {a, b} in a tick
      get the same verdict `v` and the tick visits the pair, the tick emits exactly one
      event about the pair if its record changes and none otherwise; the event is a start
      when the pair begins to overlap and a stop when it ceases to; and afterwards the pair
      is settled on `v`. */
  lemma {:induction false} OneEventPerPair(t: Tracker, vs: seq<(EntityId, EntityId)>,
                                           overlaps: (EntityId, EntityId) -> bool,
                                           a: EntityId, b: EntityId)
    requires Covers(t, vs) && a in t && b in t && a != b
    requires overlaps(a, b) == overlaps(b, a)
    requires (a, b) in vs || (b, a) in vs
    ensures var r := Sweep(t, vs, overlaps);
            var v := overlaps(a, b);
            var pe := PairEvents(r.events, a, b);
            && Settled(r.tracker, a, b, v)
            && (Settled(t, a, b, v) ==> pe == [])
            && (!Settled(t, a, b, v) && v ==> |pe| == 1 && pe[0].Start?)
            && (!Settled(t, a, b, v) && !v ==> |pe| == 1 && pe[0].Stop?)
    decreases |vs|
  {
    var v := overlaps(a, b);
    var x, y := vs[0].0, vs[0].1;
    var h := Visit(t, x, y, overlaps(x, y));
    var rest := Sweep(h.tracker, vs[1..], overlaps);
    var hd := if h.event.Some? then [h.event.value] else [];
    PairEventsAppend(hd, rest.events, a, b);
    if (x, y) == (a, b) || (x, y) == (b, a) {
      SettledPairIsSilent(h.tracker, vs[1..], overlaps, a, b, v);
    } else {
      OtherVisitKeepsPair(t, x, y, overlaps(x, y), a, b);
      assert (a, b) in vs[1..] || (b, a) in vs[1..];
      OneEventPerPair(h.tracker, vs[1..], overlaps, a, b);
    }
  }

  /** When every event is about {a, b}, filtering on the pair keeps them all. */
  lemma {:induction false} PairEventsOfPairOnly(es: seq<CollisionEvent>, a: EntityId, b: EntityId)
    requires forall e :: e in es ==> OnPair(e, a, b)
    ensures PairEvents(es, a, b) == es
  {
    if es != [] {
      PairEventsOfPairOnly(es[1..], a, b);
    }
  }

  /** A tick over exactly two entities: every event it emits is about their pair, and it
      emits one event precisely when the pair's record changes. */
  lemma TwoEntityTick(t: Tracker, a: EntityId, b: EntityId, overlaps: (EntityId, EntityId) -> bool)
    requires a != b && t.Keys == {a, b}
    requires overlaps(a, b) == overlaps(b, a)
    ensures var r := MoveStage(t, [a, b], overlaps);
            var v := overlaps(a, b);
            && r.tracker.Keys == {a, b}
            && Settled(r.tracker, a, b, v)
            && (Settled(t, a, b, v) ==> r.events == [])
            && (!Settled(t, a, b, v) ==> |r.events| == 1 && OnPair(r.events[0], a, b) && r.events[0].Start? == v)
  {
    var vs := OrderedVisits([a, b], [a, b]);
    assert Covers(t, vs);
    assert (a, b) in vs;
    var r := Sweep(t, vs, overlaps);
    OneEventPerPair(t, vs, overlaps, a, b);
    PairEventsOfPairOnly(r.events, a, b);
  }

  /** The two-entity scenario of the engine's collision test: two entities approach,
      overlap for two ticks and separate again. Exactly one start is observed when they
      first overlap, nothing while they keep overlapping, and exactly one stop when they
      separate, each naming the two entities in one order or the other. */
  lemma TwoEntityScenario(a: EntityId, b: EntityId)
    requires a != b
    ensures var t0: Tracker := map[a := {}, b := {}];
            var apart := (x: EntityId, y: EntityId) => false;
            var touching := (x: EntityId, y: EntityId) => true;
            var r1 := MoveStage(t0, [a, b], apart);
            var r2 := MoveStage(r1.tracker, [a, b], touching);
            var r3 := MoveStage(r2.tracker, [a, b], touching);
            var r4 := MoveStage(r3.tracker, [a, b], apart);
            && r1.events == []
            && |r2.events| == 1 && r2.events[0].Start? && OnPair(r2.events[0], a, b)
            && r3.events == []
            && |r4.events| == 1 && r4.events[0].Stop? && OnPair(r4.events[0], a, b)
  {
    var t0: Tracker := map[a := {}, b := {}];
    var apart := (x: EntityId, y: EntityId) => false;
    var touching := (x: EntityId, y: EntityId) => true;
    TwoEntityTick(t0, a, b, apart);
    var r1 := MoveStage(t0, [a, b], apart);
    TwoEntityTick(r1.tracker, a, b, touching);
    var r2 := MoveStage(r1.tracker, [a, b], touching);
    TwoEntityTick(r2.tracker, a, b, touching);
    var r3 := MoveStage(r2.tracker, [a, b], touching);
    TwoEntityTick(r3.tracker, a, b, apart);
  }

  // ------------------------------------------------ alternation, whatever the verdicts

  /** Starts and stops alternate, the first being a start exactly when the pair is not
      recorded at the outset. */
  ghost predicate Alternates(es: seq<CollisionEvent>, recorded: bool)
    decreases |es|
  {
    es == [] || (es[0].Start? == !recorded && Alternates(es[1..], !recorded))
  }

  /** Whether the pair is recorded after a run of its events: as the last one says. */
  function RecordedAfter(es: seq<CollisionEvent>, recorded: bool): bool
    decreases |es|
  {
    if es == [] then recorded else RecordedAfter(es[1..], es[0].Start?)
  }

  lemma {:induction false} AlternatesAppend(x: seq<CollisionEvent>, y: seq<CollisionEvent>, recorded: bool)
    requires Alternates(x, recorded) && Alternates(y, RecordedAfter(x, recorded))
    ensures Alternates(x + y, recorded)
    ensures RecordedAfter(x + y, recorded) == RecordedAfter(y, RecordedAfter(x, recorded))
    decreases |x|
  {
    if x == [] {
      assert x + y == y;
    } else {
      assert (x + y)[0] == x[0];
      assert (x + y)[1..] == x[1..] + y;
      AlternatesAppend(x[1..], y, !recorded);
    }
  }

  /** On a symmetric map one visit either leaves {a, b} alone and silent, or flips its
      record and reports that flip: a start when it becomes recorded, a stop when it
      ceases to be. The two verdicts of the pair need not agree. */
  lemma VisitFlipsPair(t: Tracker, x: EntityId, y: EntityId, ov: bool, a: EntityId, b: EntityId)
    requires x in t && y in t && a in t && b in t && a != b
    requires Symmetric(t)
    ensures var r := Visit(t, x, y, ov);
            var pe := PairEvents(if r.event.Some? then [r.event.value] else [], a, b);
            Alternates(pe, b in t[a]) && (b in r.tracker[a]) == RecordedAfter(pe, b in t[a])
  {
    var r := Visit(t, x, y, ov);
    var hd := if r.event.Some? then [r.event.value] else [];
    assert (b in t[a]) == (a in t[b]);
    if (x, y) != (a, b) && (x, y) != (b, a) {
      OtherVisitKeepsPair(t, x, y, ov, a, b);
      assert PairEvents(hd, a, b) == [];
    } else if r.event.Some? {
      assert hd[1..] == [];
      assert PairEvents(hd, a, b) == hd;
    }
  }

  /** Over any run of visits, from a symmetric map without self-records, the events about
      {a, b} alternate between start and stop, beginning as the pair's record dictates,
      and the last of them tells whether the pair is recorded at the end. */
  lemma {:induction false} PairEventsAlternate(t: Tracker, vs: seq<(EntityId, EntityId)>,
                                               overlaps: (EntityId, EntityId) -> bool,
                                               a: EntityId, b: EntityId)
    requires Covers(t, vs) && a in t && b in t && a != b
    requires Symmetric(t) && Irreflexive(t)
    ensures var r := Sweep(t, vs, overlaps);
            var pe := PairEvents(r.events, a, b);
            Alternates(pe, b in t[a]) && (b in r.tracker[a]) == RecordedAfter(pe, b in t[a])
    decreases |vs|
  {
    if vs != [] {
      var x, y := vs[0].0, vs[0].1;
      var h := Visit(t, x, y, overlaps(x, y));
      var hd := if h.event.Some? then [h.event.value] else [];
      var rest := Sweep(h.tracker, vs[1..], overlaps);
      VisitFlipsPair(t, x, y, overlaps(x, y), a, b);
      VisitPreservesInvariant(t, x, y, overlaps(x, y));
      PairEventsAlternate(h.tracker, vs[1..], overlaps, a, b);
      PairEventsAppend(hd, rest.events, a, b);
      AlternatesAppend(PairEvents(hd, a, b), PairEvents(rest.events, a, b), b in t[a]);
    }
  }

  /** The same for one move stage. */
  lemma MoveStageAlternates(t: Tracker, ids: seq<EntityId>, overlaps: (EntityId, EntityId) -> bool,
                            a: EntityId, b: EntityId)
    requires Distinct(ids) && forall i :: i in ids ==> i in t
    requires a in t && b in t && a != b
    requires Symmetric(t) && Irreflexive(t)
    ensures var r := MoveStage(t, ids, overlaps);
            var pe := PairEvents(r.events, a, b);
            Alternates(pe, b in t[a]) && (b in r.tracker[a]) == RecordedAfter(pe, b in t[a])
  {
    var vs := OrderedVisits(ids, ids);
    assert Covers(t, vs);
    PairEventsAlternate(t, vs, overlaps, a, b);
  }
}
