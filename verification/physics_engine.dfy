/** The physics engine's tick loop without its numerics: the integer-millisecond clock
    that paces state broadcasts, the collision bookkeeping of the move stage, and the
    started/quit flags of runServer. The Euler step and the overlap test are inputs
    (see Collisions); the entity manager's change buffer is summarised by the entity
    ids it leaves live for the tick. */
module PhysicsEngine {
  import opened Collisions

  /** The broadcast period a fresh engine has: broadcasting disabled. */
  const DEFAULT_BROADCAST_EVERY_MS: int := -1

  datatype Clock = Clock(stepStartedAtMs: int, lastBroadcastAtMs: int, broadcastEveryMs: int)

  datatype Engine = Engine(clock: Clock, collisions: Tracker, started: bool, quit: bool)

  /** What the observer receives: collision starts and stops, and full-state snapshots
      (here, the ids of the entities the snapshot holds, in order). */
  datatype EngineEvent = Collision(event: CollisionEvent) | BroadcastState(snapshot: seq<EntityId>)

  /** One loop iteration's inputs: the wall clock, the live entity ids after the change
      buffer is applied (in the entity map's iteration order) and the overlap verdicts. */
  datatype TickInput = TickInput(nowMs: int, ids: seq<EntityId>, overlaps: (EntityId, EntityId) -> bool)

  /** The constructor: both timestamps at the current time, broadcasting disabled,
      neither started nor quit, no collisions recorded. */
  function NewEngine(nowMs: int): (e: Engine)
    ensures e.clock.stepStartedAtMs == nowMs && e.clock.lastBroadcastAtMs == nowMs
    ensures !BroadcastEnabled(e.clock)
    ensures !e.started && !e.quit && e.collisions == map[]
  {
    Engine(Clock(nowMs, nowMs, DEFAULT_BROADCAST_EVERY_MS), map[], false, false)
  }

  predicate BroadcastEnabled(c: Clock) {
    c.broadcastEveryMs >= 0
  }

  function SetTimeBetweenBroadcast(e: Engine, everyMs: int): (r: Engine)
    ensures r.clock.broadcastEveryMs == everyMs
    ensures r.clock.stepStartedAtMs == e.clock.stepStartedAtMs && r.clock.lastBroadcastAtMs == e.clock.lastBroadcastAtMs
    ensures r.collisions == e.collisions && r.started == e.started && r.quit == e.quit
  {
    e.(clock := e.clock.(broadcastEveryMs := everyMs))
  }

  /** stageTimeStep: the step starts now; the elapsed milliseconds since the previous
      step start are returned (the engine converts them to seconds as a float). */
  function StageTimeStep(c: Clock, nowMs: int): (r: (Clock, int))
    ensures r.0.stepStartedAtMs == nowMs
    ensures r.0.lastBroadcastAtMs == c.lastBroadcastAtMs && r.0.broadcastEveryMs == c.broadcastEveryMs
    ensures c.stepStartedAtMs + r.1 == nowMs
  {
    (c.(stepStartedAtMs := nowMs), nowMs - c.stepStartedAtMs)
  }

  /** stageBroadcastState: fires when broadcasting is enabled and at least the period has
      passed since the last broadcast, and then moves the last-broadcast time to the start
      of this step; otherwise the clock is untouched. */
  function StageBroadcast(c: Clock): (r: (Clock, bool))
    ensures r.1 <==> BroadcastEnabled(c) && c.stepStartedAtMs - c.lastBroadcastAtMs >= c.broadcastEveryMs
    ensures r.1 ==> r.0 == c.(lastBroadcastAtMs := c.stepStartedAtMs)
    ensures !r.1 ==> r.0 == c
  {
    var sinceLastMs := c.stepStartedAtMs - c.lastBroadcastAtMs;
    if c.broadcastEveryMs >= 0 && sinceLastMs >= c.broadcastEveryMs then
      (c.(lastBroadcastAtMs := c.stepStartedAtMs), true)
    else
      (c, false)
  }

  function LiftEvents(es: seq<CollisionEvent>): (r: seq<EngineEvent>)
    ensures |r| == |es|
    ensures forall i :: 0 <= i < |es| ==> r[i] == Collision(es[i])
  {
    seq(|es|, i requires 0 <= i < |es| => Collision(es[i]))
  }

  /** The tick's entities are those of the entity map (distinct keys), each with its
      collision entry. */
  predicate Live(e: Engine, input: TickInput) {
    Distinct(input.ids) && forall i :: i in input.ids ==> i in e.collisions
  }

  /** One iteration of runServer's loop, in its fixed order: time step, apply changes,
      move (with collision events), broadcast. The broadcast decision sees the step start
      set by this tick's time step, and the snapshot follows every collision event of the
      tick and holds every live entity. */
  function Tick(e: Engine, input: TickInput): (r: (Engine, seq<EngineEvent>))
    requires Live(e, input)
    ensures var c := e.clock.(stepStartedAtMs := input.nowMs);
            var moved := MoveStage(e.collisions, input.ids, input.overlaps);
            var fire := StageBroadcast(c).1;
            && r.0.collisions == moved.tracker
            && r.0.clock == StageBroadcast(c).0
            && |r.1| == |moved.events| + (if fire then 1 else 0)
            && (forall i :: 0 <= i < |moved.events| ==> r.1[i] == Collision(moved.events[i]))
            && (fire ==> r.1[|r.1| - 1] == BroadcastState(input.ids))
    ensures r.0.started == e.started && r.0.quit == e.quit
    ensures r.0.clock.broadcastEveryMs == e.clock.broadcastEveryMs
    ensures r.0.collisions.Keys == e.collisions.Keys
  {
    var (c1, elapsedMs) := StageTimeStep(e.clock, input.nowMs);
    var moved := MoveStage(e.collisions, input.ids, input.overlaps);
    var (c2, fire) := StageBroadcast(c1);
    var events := LiftEvents(moved.events) + (if fire then [BroadcastState(input.ids)] else []);
    (e.(clock := c2, collisions := moved.tracker), events)
  }

  predicate AllLive(e: Engine, ticks: seq<TickInput>) {
    forall k :: 0 <= k < |ticks| ==> Live(e, ticks[k])
  }

  /** The remaining ticks stay live once the first has run: a tick keeps the tracked ids. */
  lemma AllLiveAfter(e: Engine, e1: Engine, ticks: seq<TickInput>)
    requires AllLive(e, ticks) && ticks != [] && e1.collisions.Keys == e.collisions.Keys
    ensures AllLive(e1, ticks[1..])
  {
    forall k | 0 <= k < |ticks[1..]| ensures Live(e1, ticks[1..][k]) {
      assert ticks[1..][k] == ticks[k + 1];
      assert Live(e, ticks[k + 1]);
    }
  }

  /** The loop of runServer, one tick per input until the thread is interrupted. */
  function RunTicks(e: Engine, ticks: seq<TickInput>): (r: (Engine, seq<EngineEvent>))
    requires AllLive(e, ticks)
    ensures r.0.started == e.started && r.0.quit == e.quit
    ensures r.0.clock.broadcastEveryMs == e.clock.broadcastEveryMs
    ensures r.0.collisions.Keys == e.collisions.Keys
    decreases |ticks|
  {
    if ticks == [] then (e, [])
    else
      assert Live(e, ticks[0]);
      var (e1, ev1) := Tick(e, ticks[0]);
      AllLiveAfter(e, e1, ticks);
      var (e2, ev2) := RunTicks(e1, ticks[1..]);
      (e2, ev1 + ev2)
  }

  /** runServer: a no-op when the engine is already started; otherwise both timestamps
      are reset to the start time, the ticks run, and on exit the engine is no longer
      started and has quit. */
  function RunServer(e: Engine, startMs: int, ticks: seq<TickInput>): (r: (Engine, seq<EngineEvent>))
    requires AllLive(e, ticks)
    ensures e.started ==> r == (e, [])
    ensures !e.started ==> r.0.quit && !r.0.started
    ensures r.0.clock.broadcastEveryMs == e.clock.broadcastEveryMs
  {
    if e.started then (e, [])
    else
      var running := e.(started := true, quit := false,
                        clock := e.clock.(stepStartedAtMs := startMs, lastBroadcastAtMs := startMs));
      var (done, events) := RunTicks(running, ticks);
      (done.(started := false, quit := true), events)
  }

  /** hasQuit implies not hasStarted, from construction on through any run. */
  ghost predicate FlagsConsistent(e: Engine) {
    e.quit ==> !e.started
  }

  lemma FlagsStayConsistent(e: Engine, startMs: int, ticks: seq<TickInput>, nowMs: int)
    requires AllLive(e, ticks) && FlagsConsistent(e)
    ensures FlagsConsistent(NewEngine(nowMs))
    ensures FlagsConsistent(RunServer(e, startMs, ticks).0)
  {
  }

  predicate IsBroadcast(ev: EngineEvent) {
    ev.BroadcastState?
  }

  function CountBroadcasts(evs: seq<EngineEvent>): (n: nat)
    ensures n <= |evs|
  {
    if evs == [] then 0 else (if IsBroadcast(evs[0]) then 1 else 0) + CountBroadcasts(evs[1..])
  }

  lemma CountBroadcastsAppend(x: seq<EngineEvent>, y: seq<EngineEvent>)
    ensures CountBroadcasts(x + y) == CountBroadcasts(x) + CountBroadcasts(y)
  {
    if x == [] {
      assert x + y == y;
    } else {
      assert (x + y)[0] == x[0];
      assert (x + y)[1..] == x[1..] + y;
      CountBroadcastsAppend(x[1..], y);
    }
  }

  lemma NoBroadcastsAmongCollisions(es: seq<CollisionEvent>)
    ensures CountBroadcasts(LiftEvents(es)) == 0
  {
    if es != [] {
      assert LiftEvents(es)[1..] == LiftEvents(es[1..]);
      NoBroadcastsAmongCollisions(es[1..]);
    }
  }

  /** One tick broadcasts at most once, exactly when the broadcast stage fires. */
  lemma TickBroadcasts(e: Engine, input: TickInput)
    requires Live(e, input)
    ensures CountBroadcasts(Tick(e, input).1)
            == if StageBroadcast(e.clock.(stepStartedAtMs := input.nowMs)).1 then 1 else 0
  {
    var moved := MoveStage(e.collisions, input.ids, input.overlaps);
    var fire := StageBroadcast(e.clock.(stepStartedAtMs := input.nowMs)).1;
    var tail := if fire then [BroadcastState(input.ids)] else [];
    assert Tick(e, input).1 == LiftEvents(moved.events) + tail;
    NoBroadcastsAmongCollisions(moved.events);
    CountBroadcastsAppend(LiftEvents(moved.events), tail);
    assert CountBroadcasts([BroadcastState(input.ids)]) == 1;
  }

  /** With the default negative period the engine never broadcasts, however long it runs. */
  lemma {:induction false} DisabledNeverBroadcasts(e: Engine, ticks: seq<TickInput>)
    requires AllLive(e, ticks) && !BroadcastEnabled(e.clock)
    ensures CountBroadcasts(RunTicks(e, ticks).1) == 0
    decreases |ticks|
  {
    if ticks != [] {
      assert Live(e, ticks[0]);
      TickBroadcasts(e, ticks[0]);
      var (e1, ev1) := Tick(e, ticks[0]);
      AllLiveAfter(e, e1, ticks);
      DisabledNeverBroadcasts(e1, ticks[1..]);
      CountBroadcastsAppend(ev1, RunTicks(e1, ticks[1..]).1);
    }
  }

  lemma DisabledServerNeverBroadcasts(e: Engine, startMs: int, ticks: seq<TickInput>)
    requires AllLive(e, ticks) && !BroadcastEnabled(e.clock)
    ensures CountBroadcasts(RunServer(e, startMs, ticks).1) == 0
  {
    if !e.started {
      var running := e.(started := true, quit := false,
                        clock := e.clock.(stepStartedAtMs := startMs, lastBroadcastAtMs := startMs));
      DisabledNeverBroadcasts(running, ticks);
    }
  }

  predicate NonDecreasingFrom(startMs: int, ticks: seq<TickInput>) {
    (forall k :: 0 <= k < |ticks| ==> startMs <= ticks[k].nowMs)
    && (forall k, l :: 0 <= k < l < |ticks| ==> ticks[k].nowMs <= ticks[l].nowMs)
  }

  /** With a zero period and a clock that does not run backwards, every tick broadcasts. */
  lemma {:induction false} ZeroPeriodBroadcastsEveryTick(e: Engine, ticks: seq<TickInput>)
    requires AllLive(e, ticks) && e.clock.broadcastEveryMs == 0
    requires NonDecreasingFrom(e.clock.lastBroadcastAtMs, ticks)
    ensures CountBroadcasts(RunTicks(e, ticks).1) == |ticks|
    decreases |ticks|
  {
    if ticks != [] {
      assert Live(e, ticks[0]);
      TickBroadcasts(e, ticks[0]);
      var (e1, ev1) := Tick(e, ticks[0]);
      assert e1.clock.lastBroadcastAtMs == ticks[0].nowMs;
      AllLiveAfter(e, e1, ticks);
      assert NonDecreasingFrom(e1.clock.lastBroadcastAtMs, ticks[1..]) by {
        forall k | 0 <= k < |ticks[1..]| ensures e1.clock.lastBroadcastAtMs <= ticks[1..][k].nowMs {
          assert ticks[1..][k] == ticks[k + 1];
        }
      }
      ZeroPeriodBroadcastsEveryTick(e1, ticks[1..]);
      CountBroadcastsAppend(ev1, RunTicks(e1, ticks[1..]).1);
    }
  }

  /** A tick's only broadcast is the snapshot of that tick's live entities. */
  lemma TickSnapshot(e: Engine, input: TickInput, ev: EngineEvent)
    requires Live(e, input)
    requires ev in Tick(e, input).1 && ev.BroadcastState?
    ensures ev.snapshot == input.ids
  {
    var r := Tick(e, input).1;
    var moved := MoveStage(e.collisions, input.ids, input.overlaps);
    var i :| 0 <= i < |r| && r[i] == ev;
    if i < |moved.events| {
      assert r[i] == Collision(moved.events[i]);
    }
  }

  /** Every snapshot is taken at the end of some tick and lists exactly the live entities
      of that tick. */
  lemma {:induction false} SnapshotsHoldLiveEntities(e: Engine, ticks: seq<TickInput>)
    requires AllLive(e, ticks)
    ensures forall ev :: ev in RunTicks(e, ticks).1 && ev.BroadcastState? ==>
              exists k :: 0 <= k < |ticks| && ev.snapshot == ticks[k].ids
    decreases |ticks|
  {
    if ticks != [] {
      assert Live(e, ticks[0]);
      var (e1, ev1) := Tick(e, ticks[0]);
      AllLiveAfter(e, e1, ticks);
      SnapshotsHoldLiveEntities(e1, ticks[1..]);
      var ev2 := RunTicks(e1, ticks[1..]).1;
      forall ev | ev in ev1 + ev2 && ev.BroadcastState?
        ensures exists k :: 0 <= k < |ticks| && ev.snapshot == ticks[k].ids
      {
        if ev in ev1 {
          TickSnapshot(e, ticks[0], ev);
        } else {
          var k :| 0 <= k < |ticks[1..]| && ev.snapshot == ticks[1..][k].ids;
          assert ticks[1..][k] == ticks[k + 1];
        }
      }
    }
  }

  // ------------------------------------------------ collision events over a run

  /** The collision events about {a, b} among the observer's events, in order. */
  function PairCollisions(evs: seq<EngineEvent>, a: EntityId, b: EntityId): (r: seq<CollisionEvent>)
    ensures forall c :: c in r <==> Collision(c) in evs && OnPair(c, a, b)
  {
    if evs == [] then []
    else (if evs[0].Collision? && OnPair(evs[0].event, a, b) then [evs[0].event] else [])
         + PairCollisions(evs[1..], a, b)
  }

  lemma {:induction false} PairCollisionsAppend(x: seq<EngineEvent>, y: seq<EngineEvent>, a: EntityId, b: EntityId)
    ensures PairCollisions(x + y, a, b) == PairCollisions(x, a, b) + PairCollisions(y, a, b)
    decreases |x|
  {
    if x == [] {
      assert x + y == y;
    } else {
      assert (x + y)[0] == x[0];
      assert (x + y)[1..] == x[1..] + y;
      PairCollisionsAppend(x[1..], y, a, b);
    }
  }

  /** A tick reports about {a, b} exactly the move stage's events about the pair. */
  lemma {:induction false} TickPairCollisions(e: Engine, input: TickInput, a: EntityId, b: EntityId)
    requires Live(e, input)
    ensures PairCollisions(Tick(e, input).1, a, b)
            == PairEvents(MoveStage(e.collisions, input.ids, input.overlaps).events, a, b)
  {
    var es := MoveStage(e.collisions, input.ids, input.overlaps).events;
    var r := Tick(e, input).1;
    LiftedPairCollisions(es, a, b);
    if |r| > |es| {
      assert r == LiftEvents(es) + [r[|r| - 1]];
      PairCollisionsAppend(LiftEvents(es), [r[|r| - 1]], a, b);
      assert [r[|r| - 1]][1..] == [];
    } else {
      assert r == LiftEvents(es);
    }
  }

  lemma {:induction false} LiftedPairCollisions(es: seq<CollisionEvent>, a: EntityId, b: EntityId)
    ensures PairCollisions(LiftEvents(es), a, b) == PairEvents(es, a, b)
    decreases |es|
  {
    if es != [] {
      assert LiftEvents(es)[1..] == LiftEvents(es[1..]);
      LiftedPairCollisions(es[1..], a, b);
    }
  }

  /** However the two ordered verdicts of a pair differ from tick to tick, the observer
      sees the pair's starts and stops strictly alternate over the whole run, beginning
      with a start when the pair is not recorded at the outset, and the last of them tells
      whether the pair is recorded at the end. */
  lemma {:induction false} CollisionsAlternate(e: Engine, ticks: seq<TickInput>, a: EntityId, b: EntityId)
    requires AllLive(e, ticks)
    requires a in e.collisions && b in e.collisions && a != b
    requires Symmetric(e.collisions) && Irreflexive(e.collisions)
    ensures var r := RunTicks(e, ticks);
            var pe := PairCollisions(r.1, a, b);
            Alternates(pe, b in e.collisions[a]) && (b in r.0.collisions[a]) == RecordedAfter(pe, b in e.collisions[a])
    decreases |ticks|
  {
    if ticks != [] {
      assert Live(e, ticks[0]);
      var (e1, ev1) := Tick(e, ticks[0]);
      AllLiveAfter(e, e1, ticks);
      MoveStageAlternates(e.collisions, ticks[0].ids, ticks[0].overlaps, a, b);
      TickPairCollisions(e, ticks[0], a, b);
      CollisionsAlternate(e1, ticks[1..], a, b);
      var ev2 := RunTicks(e1, ticks[1..]).1;
      PairCollisionsAppend(ev1, ev2, a, b);
      AlternatesAppend(PairCollisions(ev1, a, b), PairCollisions(ev2, a, b), b in e.collisions[a]);
    }
  }
}
