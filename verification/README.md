# Drones simulator: game-engine core and drone-side helpers in Dafny

This project models the sequential logic of the drones simulator, a game in which
drones fly, shoot and collide while a game engine steps the world and publishes its state.

The model covers the following parts:

- **Collision tracker** (`Collisions`). This is the move stage of the physics engine without its numerics. The engine keeps a map from entity id to the set of ids that entity currently collides with. Every ordered pair of distinct entities is visited once per tick. A visit records or forgets the pair according to an overlap verdict. It reports a collision start when the pair becomes recorded and a collision stop when it is forgotten.
- **Physics engine loop** (`PhysicsEngine`). This is the integer-millisecond clock that paces state broadcasts, one tick in its fixed stage order, and the started/quit flags of `runServer`.
- **Rule pipeline** (`RuleProcessors`, `RuleSets`):
  - processing a batch through one rule;
  - threading a batch through an ordered rule list;
  - the consumer loop that feeds each dequeued event through the main chain, and through the interval chain when the interval timer has expired;
  - `configRules`;
  - the rule chain for each game mode.
- **Game entities** (`GameEntities`). This is the entity record with its final id and size, its mutable kinematics, and the health points with `damage`.
- **Radio** (`Radio`). This is the received-message queue and `getMessage`, which takes the first message of a class out of the queue.
- **Tactic framework** (`Tactic`):
  - the component predicates;
  - the lifecycle handler table that `startTactic` registers;
  - the `registered` and `initialized` flags;
  - kill-message handling.
- **Team messages** (`TacticMessages`). This is `MyTacticMessage` and `InstructionMessage`: building a message map and checking its type.
- **Movement message** (`MovementMessages`). This covers the optional fields and the topic.
- **Drone init** (`DroneInit`). This covers identifier and team selection from the environment, and the rename-and-retry registration.
- **Discovery paths** (`EtcdDiscoverer`, `DiscoveryApi`). This covers the path helpers and the record of registered instances. The etcd client is treated as an oracle.

Anything nondeterministic or external is an input to the model:

- the overlap test;
- the wall clock;
- the interval timer's verdict;
- the discoverer's and etcd's answers;
- UUIDs;
- the environment.

Java's 32-bit `int` arithmetic in `damage` is written out as wrap-around (`GameEntities.Wrap32`).

Two points of the model are worth stating up front:

- **Rules work per event, not per batch.** `Rule.process` takes one event, and `processEventsForRule` concatenates its outputs over the batch, so a rule is modelled as a stateless function from one event to a list of events. For such stateless rules, `RuleProcessors.ProcessEventsForRulesAppend` and `RuleProcessors.DrainMatchesBatch` state the consequence: handling events one at a time gives the same output as one big batch. A concrete rule that keeps state between events is outside that statement.
- **The interval chain is driven by a timer.** The consumer loop asks a timeout timer whether the interval chain is due, so the timer's verdict is an input.

`getDirName` is documented as returning the last segment of a path. The code returns the suffix from the last `/` with the `/` included, and the model follows the code (`EtcdDiscoverer.GetDirNameOfInstancePath`).

## Model

| member | source | states |
|---|---|---|
| Collisions.Visit | implementation/gameengine/physicsengine/src/main/java/org/inaetics/dronessimulator/physicsengine/PhysicsEngine.java:130-164 | visiting an entity with itself changes nothing; otherwise both records agree with the verdict afterwards; a start is reported exactly when the entities overlap and at least one side had not recorded the other; a stop is reported exactly when they do not overlap and at least one side had recorded the other; all other entries are untouched |
| Collisions.VisitPreservesInvariant | implementation/gameengine/physicsengine/src/main/java/org/inaetics/dronessimulator/physicsengine/PhysicsEngine.java:139-158 | a visit keeps the tracker symmetric (b recorded for a iff a recorded for b) and free of self-collisions |
| Collisions.MirrorVisitIsSilent | implementation/gameengine/physicsengine/src/main/java/org/inaetics/dronessimulator/physicsengine/PhysicsEngine.java:136-163 | with the same verdict, the mirror visit (b,a) right after (a,b) reports nothing |
| Collisions.OrderedVisits | implementation/gameengine/physicsengine/src/main/java/org/inaetics/dronessimulator/physicsengine/PhysicsEngine.java:112-128 | the visits of one move stage are exactly the ordered pairs of live entities |
| Collisions.Sweep | implementation/gameengine/physicsengine/src/main/java/org/inaetics/dronessimulator/physicsengine/PhysicsEngine.java:109-170 | a move stage keeps the set of tracked ids, and every reported event is on two distinct entities and on a visited pair (no self-collision is ever reported) |
| Collisions.MoveStage | implementation/gameengine/physicsengine/src/main/java/org/inaetics/dronessimulator/physicsengine/PhysicsEngine.java:109-170 | the full outer-by-inner loop over the live entities, whose ids are distinct since they are the keys of the entity map: the tracked ids are kept, every event is on two distinct ids both among the live entities, the entries of entities that are not live are unchanged, and a symmetric irreflexive tracker stays so |
| Collisions.PairEventsAlternate | implementation/gameengine/physicsengine/src/main/java/org/inaetics/dronessimulator/physicsengine/PhysicsEngine.java:130-164 | from a symmetric tracker, over any sequence of visits and whatever the verdicts, the events about one pair alternate between start and stop, beginning with a start iff the pair was not recorded, and the last of them tells whether the pair is recorded afterwards |
| Collisions.MoveStageAlternates | implementation/gameengine/physicsengine/src/main/java/org/inaetics/dronessimulator/physicsengine/PhysicsEngine.java:109-170 | the same for one full move stage |
| Collisions.SweepPreservesInvariant | implementation/gameengine/physicsengine/src/main/java/org/inaetics/dronessimulator/physicsengine/PhysicsEngine.java:109-170 | a whole move stage keeps the tracker symmetric and irreflexive |
| Collisions.SettledPairIsSilent | implementation/gameengine/physicsengine/src/main/java/org/inaetics/dronessimulator/physicsengine/PhysicsEngine.java:136-164 | a pair whose records already match its verdict gets no event in a tick |
| Collisions.OneEventPerPair | implementation/gameengine/physicsengine/src/main/java/org/inaetics/dronessimulator/physicsengine/PhysicsEngineEventObserver.java:10-24 | with the same verdict for (a,b) and (b,a), a tick reports for the pair one start if it starts overlapping, one stop if it stops, and nothing otherwise, and the pair ends settled |
| Collisions.TwoEntityTick | implementation/gameengine/physicsengine/src/test/java/org/inaetics/dronessimulator/gameengine/test/TestGameCollisionAndBroadcast.java:55-85 | with two entities and the same verdict for (a,b) and (b,a), a tick reports at most one event, a start when they overlap and were not recorded, a stop when they stopped overlapping (with differing verdicts, `Collisions.PairEventsAlternate` still applies) |
| Collisions.TwoEntityScenario | implementation/gameengine/physicsengine/src/test/java/org/inaetics/dronessimulator/gameengine/test/TestGameCollisionAndBroadcast.java:30-85 | two entities that approach, overlap, stay overlapping and separate get exactly one start and then exactly one stop |
| PhysicsEngine.NewEngine | implementation/gameengine/physicsengine/src/main/java/org/inaetics/dronessimulator/physicsengine/PhysicsEngine.java:50-62 | a new engine has both timestamps at the current time, broadcasting disabled (period -1), neither started nor quit, and no collisions |
| PhysicsEngine.SetTimeBetweenBroadcast | implementation/gameengine/physicsengine/src/main/java/org/inaetics/dronessimulator/physicsengine/PhysicsEngine.java:72-75 | only the broadcast period changes |
| PhysicsEngine.StageTimeStep | implementation/gameengine/physicsengine/src/main/java/org/inaetics/dronessimulator/physicsengine/PhysicsEngine.java:95-102 | the step starts now, and the returned elapsed time is the time since the previous step start |
| PhysicsEngine.StageBroadcast | implementation/gameengine/physicsengine/src/main/java/org/inaetics/dronessimulator/physicsengine/PhysicsEngine.java:175-183 | a broadcast fires iff the period is non-negative and at least the period has passed since the last broadcast; it then moves the last-broadcast time to the step start, and otherwise leaves the clock unchanged |
| PhysicsEngine.Tick | implementation/gameengine/physicsengine/src/main/java/org/inaetics/dronessimulator/physicsengine/PhysicsEngine.java:200-205 | a tick runs time step, move and broadcast in that order: its events are the move stage's collision events in order, followed by one snapshot of the live entities exactly when the broadcast stage fires on this tick's step start; the tracker and clock are those the stages leave |
| PhysicsEngine.RunTicks | implementation/gameengine/physicsengine/src/main/java/org/inaetics/dronessimulator/physicsengine/PhysicsEngine.java:200-205 | the loop keeps the flags, the broadcast period and the tracked ids |
| PhysicsEngine.RunServer | implementation/gameengine/physicsengine/src/main/java/org/inaetics/dronessimulator/physicsengine/PhysicsEngine.java:189-212 | an already started engine is left alone; otherwise it runs and ends not started and quit |
| PhysicsEngine.FlagsStayConsistent | implementation/gameengine/physicsengine/src/main/java/org/inaetics/dronessimulator/physicsengine/PhysicsEngine.java:192-208 | quit implies not started, for a new engine and after any run |
| PhysicsEngine.TickBroadcasts | implementation/gameengine/physicsengine/src/main/java/org/inaetics/dronessimulator/physicsengine/PhysicsEngine.java:175-183 | a tick broadcasts once when the broadcast stage fires and not at all otherwise |
| PhysicsEngine.DisabledNeverBroadcasts | implementation/gameengine/physicsengine/src/main/java/org/inaetics/dronessimulator/physicsengine/PhysicsEngine.java:175-183 | with a negative period, for example the default -1, no tick ever broadcasts |
| PhysicsEngine.DisabledServerNeverBroadcasts | implementation/gameengine/physicsengine/src/main/java/org/inaetics/dronessimulator/physicsengine/PhysicsEngine.java:189-212 | a whole server run with broadcasting disabled broadcasts nothing |
| PhysicsEngine.ZeroPeriodBroadcastsEveryTick | implementation/gameengine/physicsengine/src/main/java/org/inaetics/dronessimulator/physicsengine/PhysicsEngine.java:175-183 | with period 0 and a clock that never runs backwards, every tick broadcasts |
| PhysicsEngine.SnapshotsHoldLiveEntities | implementation/gameengine/physicsengine/src/main/java/org/inaetics/dronessimulator/physicsengine/PhysicsEngine.java:175-183 | whatever the live entities of each tick, every snapshot of a run lists exactly the live entities of one of its ticks |
| PhysicsEngine.TickSnapshot | implementation/gameengine/physicsengine/src/main/java/org/inaetics/dronessimulator/physicsengine/PhysicsEngine.java:175-205 | the snapshot a tick broadcasts lists exactly that tick's live entities |
| PhysicsEngine.TickPairCollisions | implementation/gameengine/physicsengine/src/main/java/org/inaetics/dronessimulator/physicsengine/PhysicsEngine.java:130-205 | the collision events a tick passes to the observer about a pair are the move stage's events about it |
| PhysicsEngine.CollisionsAlternate | implementation/gameengine/physicsengine/src/main/java/org/inaetics/dronessimulator/physicsengine/PhysicsEngineEventObserver.java:10-24 | over any run, however the verdicts vary, the observer sees each pair's collision starts and stops strictly alternate, beginning with a start iff the pair was not recorded, and the last of them tells whether the pair is recorded at the end |
| RuleProcessors.ProcessEventsForRule | implementation/gameengine/ruleprocessors/src/main/java/org/inaetics/dronessimulator/gameengine/ruleprocessors/RuleProcessors.java:113-121 | an empty batch gives an empty result; an event is in the result iff the rule produces it for some input event |
| RuleProcessors.ProcessEventsForRuleAppend | implementation/gameengine/ruleprocessors/src/main/java/org/inaetics/dronessimulator/gameengine/ruleprocessors/RuleProcessors.java:113-121 | the result for a + b is the result for a followed by the result for b, so input order is kept |
| RuleProcessors.ProcessSingleton | implementation/gameengine/ruleprocessors/src/main/java/org/inaetics/dronessimulator/gameengine/ruleprocessors/RuleProcessors.java:113-121 | a singleton batch gives exactly the rule's output for that event |
| RuleProcessors.ProcessEventsForRules | implementation/gameengine/ruleprocessors/src/main/java/org/inaetics/dronessimulator/gameengine/ruleprocessors/RuleProcessors.java:99-104 | an empty rule list passes the batch through unchanged |
| RuleProcessors.ProcessEventsForRulesCompose | implementation/gameengine/ruleprocessors/src/main/java/org/inaetics/dronessimulator/gameengine/ruleprocessors/RuleProcessors.java:99-104 | running rs1 and then rs2 is running rs1 + rs2 |
| RuleProcessors.LastRuleSeesAll | implementation/gameengine/ruleprocessors/src/main/java/org/inaetics/dronessimulator/gameengine/ruleprocessors/RuleProcessors.java:99-104 | the last rule receives the whole output of the rules before it |
| RuleProcessors.EmptyBatchStaysEmpty | implementation/gameengine/ruleprocessors/src/main/java/org/inaetics/dronessimulator/gameengine/ruleprocessors/RuleProcessors.java:99-121 | an empty batch stays empty through any rule list |
| RuleProcessors.DroppedBatchStaysDropped | implementation/gameengine/ruleprocessors/src/main/java/org/inaetics/dronessimulator/gameengine/ruleprocessors/RuleProcessors.java:99-121 | once a prefix of the rules has dropped every event, every later rule gets the empty batch |
| RuleProcessors.ProcessEventsForRulesAppend | implementation/gameengine/ruleprocessors/src/main/java/org/inaetics/dronessimulator/gameengine/ruleprocessors/RuleProcessors.java:99-121 | a rule list applied to a + b gives its result for a followed by its result for b |
| RuleProcessors.RunStep | implementation/gameengine/ruleprocessors/src/main/java/org/inaetics/dronessimulator/gameengine/ruleprocessors/RuleProcessors.java:79-88 | a null event only logs; a non-null one goes through the main chain as a singleton; the interval chain runs on the same singleton, after a timer reset, exactly when the timer has expired |
| RuleProcessors.Drain | implementation/gameengine/ruleprocessors/src/main/java/org/inaetics/dronessimulator/gameengine/ruleprocessors/RuleProcessors.java:69-89 | the consumer loop handles the dequeued values one by one, in queue order |
| RuleProcessors.DrainMatchesBatch | implementation/gameengine/ruleprocessors/src/main/java/org/inaetics/dronessimulator/gameengine/ruleprocessors/RuleProcessors.java:66-92 | over the whole queue, the main chain's outputs are what the chain produces for all non-null events as one batch |
| RuleProcessors.ConfigRules | implementation/gameengine/ruleprocessors/src/main/java/org/inaetics/dronessimulator/gameengine/ruleprocessors/RuleProcessors.java:123-130 | each rule is configured once, main rules first and then interval rules, each in list order |
| RuleSets.GetRulesForGameMode | implementation/gameengine/ruleprocessors/src/main/java/org/inaetics/dronessimulator/gameengine/ruleprocessors/RuleSets.java:17-39 | the five general rules come first in their fixed order; Deathmatch and Teamplay add their victory rule right before SendMessages (length 7); any other mode adds none (length 6); SendMessages is last and occurs once |
| RuleSets.ChainEndsWithPublish | implementation/gameengine/ruleprocessors/src/main/java/org/inaetics/dronessimulator/gameengine/ruleprocessors/RuleSets.java:36-37 | whatever the rules do, the chain's value is SendMessages applied to everything the earlier rules let through |
| GameEntities.NewGameEntity | implementation/gameengine/common/src/main/java/org/inaetics/dronessimulator/gameengine/common/state/GameEntity.java:13-39 | the constructor sets every field from its argument, with no health |
| GameEntities.NewHealthEntity | implementation/gameengine/common/src/main/java/org/inaetics/dronessimulator/gameengine/common/state/HealthGameEntity.java:27-31 | the health constructor sets the hp from its argument and the size to null |
| GameEntities.SetPosition | implementation/gameengine/common/src/main/java/org/inaetics/dronessimulator/gameengine/common/state/GameEntity.java:25-27 | only the position changes |
| GameEntities.SetVelocity | implementation/gameengine/common/src/main/java/org/inaetics/dronessimulator/gameengine/common/state/GameEntity.java:29-31 | only the velocity changes |
| GameEntities.SetAcceleration | implementation/gameengine/common/src/main/java/org/inaetics/dronessimulator/gameengine/common/state/GameEntity.java:33-35 | only the acceleration changes |
| GameEntities.SetDirection | implementation/gameengine/common/src/main/java/org/inaetics/dronessimulator/gameengine/common/state/GameEntity.java:37-39 | only the direction changes |
| GameEntities.DeepCopy | implementation/gameengine/common/src/main/java/org/inaetics/dronessimulator/gameengine/common/state/GameEntity.java:47-51 | the copy equals the original field by field |
| GameEntities.Damage | implementation/gameengine/common/src/main/java/org/inaetics/dronessimulator/gameengine/common/state/HealthGameEntity.java:43-45 | the hp becomes hp - dmg with no clamp (zero and negative allowed), wrapping as a 32-bit int; nothing else changes |
| GameEntities.DamageZero | implementation/gameengine/common/src/main/java/org/inaetics/dronessimulator/gameengine/common/state/HealthGameEntity.java:43-45 | damage(0) changes nothing |
| GameEntities.DamageTwice | implementation/gameengine/common/src/main/java/org/inaetics/dronessimulator/gameengine/common/state/HealthGameEntity.java:43-45 | damage(a) then damage(b) is damage(a + b), with the sum wrapped as a 32-bit int |
| GameEntities.DroneHitByBullet | implementation/gameengine/common/src/test/java/org/inaetics/dronessimulator/gameengine/test/TestGameDamage.java:13-24 | a full-health drone hit by a 100-damage bullet ends at its maximum health minus 100 |
| GameEntities.FinalFieldsNeverChange | implementation/gameengine/common/src/main/java/org/inaetics/dronessimulator/gameengine/common/state/GameEntity.java:17-23 | no sequence of setter calls and damage changes the id or the size |
| Radio.NewRadio | implementation/drone/components/radio/src/main/java/org/inaetics/dronessimulator/drone/components/radio/Radio.java:34 | the received queue starts empty |
| Radio.HandleMessage | implementation/drone/components/radio/src/main/java/org/inaetics/dronessimulator/drone/components/radio/Radio.java:87-89 | the message is appended at the tail and the queue is otherwise unchanged |
| Radio.FirstInstance | implementation/drone/components/radio/src/main/java/org/inaetics/dronessimulator/drone/components/radio/Radio.java:98 | the position of the first message of the class, or the queue length when none matches |
| Radio.TakeFirst | implementation/drone/components/radio/src/main/java/org/inaetics/dronessimulator/drone/components/radio/Radio.java:97-105 | on a miss, nothing is returned and the queue is unchanged; on a hit, the returned message is of the class and is the first such message; it is removed and the others keep their order |
| Radio.GetMessage | implementation/drone/components/radio/src/main/java/org/inaetics/dronessimulator/drone/components/radio/Radio.java:97-105 | find the first instance, then remove the first equal element, with the same result as TakeFirst |
| Radio.TakeFirstIsFirstMatch | implementation/drone/components/radio/src/main/java/org/inaetics/dronessimulator/drone/components/radio/Radio.java:98-102 | when position k holds the first message of the class, that message is returned and exactly position k is removed |
| Radio.TakeFirstKeepsOthers | implementation/drone/components/radio/src/main/java/org/inaetics/dronessimulator/drone/components/radio/Radio.java:99-102 | the returned message and the remaining queue together hold exactly the original messages |
| Radio.TakeAfterHandle | implementation/drone/components/radio/src/main/java/org/inaetics/dronessimulator/drone/components/radio/Radio.java:87-105 | after handleMessage(m), an older message of the class is taken first and m stays at the tail; m itself is returned only when no older message is of the class |
| Tactic.GetAvailableComponents | implementation/drone/tactic/src/main/java/org/inaetics/dronessimulator/drone/tactic/Tactic.java:284-302 | the set holds exactly the names of the present components |
| Tactic.HasComponents | implementation/drone/tactic/src/main/java/org/inaetics/dronessimulator/drone/tactic/Tactic.java:253-275 | true iff every recognised name asked for is available (true for no names; unknown names are ignored) |
| Tactic.ValidateRequiredComponents | implementation/drone/tactic/src/main/java/org/inaetics/dronessimulator/drone/tactic/Tactic.java:277-281 | throws, with the required names, exactly when hasComponents is false |
| Tactic.CallsFor | implementation/drone/tactic/src/main/java/org/inaetics/dronessimulator/drone/tactic/Tactic.java:90-122 | a transition triggers at most one call, the one registered for exactly that (from, action, to) triple |
| Tactic.LifecycleTableShape | implementation/drone/tactic/src/main/java/org/inaetics/dronessimulator/drone/tactic/Tactic.java:90-122 | there are eight registrations on distinct triples; STOP goes to INIT from CONFIG, RUNNING and PAUSED; GAMEOVER goes from RUNNING to DONE; only STOP and GAMEOVER stop the simulation |
| Tactic.Configure | implementation/drone/tactic/src/main/java/org/inaetics/dronessimulator/drone/tactic/Tactic.java:148-156 | register is attempted; only a normal return sets the registered flag, and DuplicateName or IOException leaves it as it was |
| Tactic.Unconfigure | implementation/drone/tactic/src/main/java/org/inaetics/dronessimulator/drone/tactic/Tactic.java:158-168 | unregister is attempted only when registered, and only a successful one clears the flag |
| Tactic.Perform | implementation/drone/tactic/src/main/java/org/inaetics/dronessimulator/drone/tactic/Tactic.java:173-218 | start initialises the concrete tactic only when not initialised and stop finalises only when initialised; afterwards the flag is set or cleared; other calls keep it |
| Tactic.OnTransition | implementation/drone/tactic/src/main/java/org/inaetics/dronessimulator/drone/tactic/Tactic.java:90-122 | a transition with no registered handler does nothing; a registered transition performs exactly its registered call |
| Tactic.LifecycleFlags | implementation/drone/tactic/src/main/java/org/inaetics/dronessimulator/drone/tactic/Tactic.java:90-122 | starting from CONFIG leaves the tactic initialised, every registered STOP or GAMEOVER transition leaves it finalised, and configuring sets the registered flag iff discovery accepts or it was already set |
| Tactic.HandleKillMessage | implementation/drone/tactic/src/main/java/org/inaetics/dronessimulator/drone/tactic/Tactic.java:238-246 | the simulation stops iff the kill message names this drone |
| Tactic.InitializeFinalizeAlternate | implementation/drone/tactic/src/main/java/org/inaetics/dronessimulator/drone/tactic/Tactic.java:173-218 | over any run of calls, initializeTactics and finalizeTactics strictly alternate, starting as the initial flag dictates, and the final flag records which came last |
| TacticMessages.GetType | implementation/drone/tactic/src/main/java/org/inaetics/dronessimulator/drone/tactic/example/utility/messages/MyTacticMessage.java:53-55 | the type is the class's simple name unless the subclass overrides it |
| TacticMessages.GetMessage | implementation/drone/tactic/src/main/java/org/inaetics/dronessimulator/drone/tactic/example/utility/messages/MyTacticMessage.java:27-38 | fails iff the type is not one of the six registered names; otherwise the map holds the data keys plus "id" and "type", every data value as given (data wins a clash), and otherwise the identifier and the type |
| TacticMessages.CheckType | implementation/drone/tactic/src/main/java/org/inaetics/dronessimulator/drone/tactic/example/utility/messages/MyTacticMessage.java:23-25 | false for a null type, otherwise equality with the message's "type" entry |
| TacticMessages.CheckTypeOfClass | implementation/drone/tactic/src/main/java/org/inaetics/dronessimulator/drone/tactic/example/utility/messages/MyTacticMessage.java:19-21 | equality of the class's simple name with the message's "type" entry |
| TacticMessages.BuiltMessageChecksType | implementation/drone/tactic/src/main/java/org/inaetics/dronessimulator/drone/tactic/example/utility/messages/MyTacticMessage.java:27-38 | a built message passes checkType for its own type unless the data overwrote "type" |
| TacticMessages.ClassCheckIsNameCheck | implementation/drone/tactic/src/main/java/org/inaetics/dronessimulator/drone/tactic/example/utility/messages/MyTacticMessage.java:19-25 | the class check is the string check on the simple name |
| TacticMessages.InstructionTypeName | implementation/drone/tactic/src/main/java/org/inaetics/dronessimulator/drone/tactic/example/utility/messages/InstructionMessage.java:22-24 | the enum constant's name is "MOVE" or "SHOOT": MOVE exactly for Move and SHOOT exactly for Shoot |
| TacticMessages.InstructionTypeNameInjective | implementation/drone/tactic/src/main/java/org/inaetics/dronessimulator/drone/tactic/example/utility/messages/InstructionMessage.java:22-24 | distinct instruction types have distinct names |
| TacticMessages.InstructionData | implementation/drone/tactic/src/main/java/org/inaetics/dronessimulator/drone/tactic/example/utility/messages/InstructionMessage.java:15-20 | the data has exactly the keys InstructionType, receiver and target, with the type's name, the receiver unchanged and the target |
| TacticMessages.InstructionMessageBuilds | implementation/drone/tactic/src/main/java/org/inaetics/dronessimulator/drone/tactic/example/utility/messages/InstructionMessage.java:11-20 | an instruction message always builds, with id, type and the three data entries and no clash |
| MovementMessages.NewMovementMessage | implementation/common/src/main/java/org/inaetics/dronessimulator/common/protocol/MovementMessage.java:13-21 | all three fields start absent |
| MovementMessages.SetIdentifier | implementation/common/src/main/java/org/inaetics/dronessimulator/common/protocol/MovementMessage.java:39-41 | the getter returns what was set (None for null), and the other fields are unchanged |
| MovementMessages.SetDirection | implementation/common/src/main/java/org/inaetics/dronessimulator/common/protocol/MovementMessage.java:23-29 | the getter returns what was set, and the other fields are unchanged |
| MovementMessages.SetAcceleration | implementation/common/src/main/java/org/inaetics/dronessimulator/common/protocol/MovementMessage.java:31-37 | the getter returns what was set, and the other fields are unchanged |
| MovementMessages.SettersCommute | implementation/common/src/main/java/org/inaetics/dronessimulator/common/protocol/MovementMessage.java:23-41 | the three setters commute and together determine the message |
| MovementMessages.GetTopics | implementation/common/src/main/java/org/inaetics/dronessimulator/common/protocol/MovementMessage.java:43-50 | the topics are exactly [MOVEMENTS] |
| DroneInit.InitIdentifier | implementation/drone/drone-init/src/main/java/org/inaetics/dronessimulator/drone/droneinit/DroneInit.java:96-106 | DRONENAME, else COMPUTERNAME, else HOSTNAME, else a fresh UUID |
| DroneInit.NewDroneInit | implementation/drone/drone-init/src/main/java/org/inaetics/dronessimulator/drone/droneinit/DroneInit.java:40-42 | the constructor initialises the identifier and registers nothing |
| DroneInit.GetTeamname | implementation/drone/drone-init/src/main/java/org/inaetics/dronessimulator/drone/droneinit/DroneInit.java:76-83 | DRONE_TEAM when set, else "unknown_team" |
| DroneInit.RegisterDroneService | implementation/drone/drone-init/src/main/java/org/inaetics/dronessimulator/drone/droneinit/DroneInit.java:63-74 | each DuplicateName appends "-" and a UUID and retries, so the old identifier stays a prefix; an IOException ends the run; the instance, with property team = the team name, is recorded exactly when a register succeeds |
| DroneInit.DuplicateExtendsName | implementation/drone/drone-init/src/main/java/org/inaetics/dronessimulator/drone/droneinit/DroneInit.java:70-73 | after a duplicate, the name is strictly longer and starts with the old name, "-" and the UUID |
| DroneInit.StopInstance | implementation/drone/drone-init/src/main/java/org/inaetics/dronessimulator/drone/droneinit/DroneInit.java:85-87 | stop unregisters the recorded instance (null when none was recorded) |
| DroneInit.StopUnregistersRegistered | implementation/drone/drone-init/src/main/java/org/inaetics/dronessimulator/drone/droneinit/DroneInit.java:63-87 | after a successful registration, stop unregisters exactly the drone instance under its final name |
| EtcdDiscoverer.BuildPath | implementation/discovery/etcd/src/main/java/org/inaetics/dronessimulator/discovery/etcd/EtcdDiscoverer.java:180-182 | the path is "/" followed by the segments joined with "/" |
| EtcdDiscoverer.BuildInstancePath | implementation/discovery/etcd/src/main/java/org/inaetics/dronessimulator/discovery/etcd/EtcdDiscoverer.java:189-191 | the instance path is /type/group/name |
| EtcdDiscoverer.GetDirName | implementation/discovery/etcd/src/main/java/org/inaetics/dronessimulator/discovery/etcd/EtcdDiscoverer.java:199-201 | the result is a suffix of the input; it is the input when the input has no "/"; otherwise it starts with "/" and holds no other "/" |
| EtcdDiscoverer.GetDirNameIdempotent | implementation/discovery/etcd/src/main/java/org/inaetics/dronessimulator/discovery/etcd/EtcdDiscoverer.java:199-201 | applying getDirName twice is applying it once |
| EtcdDiscoverer.GetDirNameOfInstancePath | implementation/discovery/etcd/src/main/java/org/inaetics/dronessimulator/discovery/etcd/EtcdDiscoverer.java:180-201 | for an instance whose name has no "/", getDirName of its path is "/" + name |
| EtcdDiscoverer.Register | implementation/discovery/etcd/src/main/java/org/inaetics/dronessimulator/discovery/etcd/EtcdDiscoverer.java:48-93 | NodeExist gives DuplicateName and any other error gives IOException, recording nothing; a successful put records the instance, reusing the discoverable-config key already recorded or taking the key etcd assigns; other instances are unchanged |
| EtcdDiscoverer.Unregister | implementation/discovery/etcd/src/main/java/org/inaetics/dronessimulator/discovery/etcd/EtcdDiscoverer.java:95-107 | the config key is deleted first when the instance is config-discoverable and has one, then the instance directory; an IOException from either delete ends the call with the record unchanged (a failed config delete sends no directory delete); when both succeed the instance is dropped and every other record is kept |
| EtcdDiscoverer.RegisterThenUnregister | implementation/discovery/etcd/src/main/java/org/inaetics/dronessimulator/discovery/etcd/EtcdDiscoverer.java:48-107 | registering a new instance and unregistering it with both deletes succeeding restores the record and deletes exactly what registering created |

## Left out

- **Numerics.** The Euler integration, `stageTimeStep`'s float conversion, gravity, `Entity.nextVelocity` and `Entity.collides` are left out because they are floating-point numerics. Overlap is an input verdict per ordered visit, and vectors are opaque reals that are only stored.
- **Entity manager and snapshots.** The change buffer (`processChanges`) and `copyState` are left out: the entity manager is not part of this model. A tick instead takes the live entity ids, and a snapshot is that id list. Every live id is required to already have a tracker entry, as the entity manager ensures; Java would throw NullPointerException otherwise.
- **Threads and concurrency.** The following are modelled sequentially:
  - `Thread`, interruption, `LinkedBlockingQueue.take`, `ConcurrentLinkedQueue`, `AtomicBoolean` and `volatile`;
  - the tactic's worker thread and its timeout killer;
  - each thread effect, which is reported as an `Effect`.
- **Observer.** The observer is assumed to be set: the engine asserts it before starting. The `observer != null` guards around the collision handlers are therefore always true.
- **Interval timer and interval rules.** The interval timer's expiry is an input to `RuleProcessors.RunStep`. `getIntervalRulesForGameMode` is not part of this model, so the interval rule list is a parameter.
- **Rule bodies.** What each concrete rule does is a parameter (`RuleSets.Instantiate`). Rules are modelled as stateless functions of one event: their side effects (publishing, the shared game state some rules keep) are dropped. `GameMode` lists Deathmatch and Teamplay, and OtherMode stands for every other constant of the enumeration.
- **Etcd client I/O.** `find`, `getProperties`, the property writes in `register` and the failure of the config-key post are left out. The etcd answers are inputs.
- **Network sends.** `Radio.send`, `sendText` and `start` are network I/O.
- **Message classes.** A message class is represented by its simple name. The `MESSAGETYPES` reflection is the fixed list of six names.
- **Other components.** Engine.java, both SimpleTactic files, the tactic tester, GameEngine.java, the visualisation and the physics engine wrapper's rules are not part of this model. They are floating-point steering, UI, or wiring over code not part of this model.
- **Null receiver or target.** A null receiver or target in `InstructionMessage` is not modelled: strings are never null here. The target is taken as the string `String.valueOf` produces.
- **Drone instance.** DroneInstance.java is not part of this model. The drone instance's type and group are represented by the string "drone", and it is taken as not config-discoverable.
- DroneInit.RegisterDroneService: Java recurses until a name is accepted or an IOException is thrown. The model consumes a finite list of discoverer answers and reports StillRetrying when they run out, because an unbounded retry cannot be a terminating function.
- GameEntities.Damage: requires the current hp and the damage to be 32-bit values, as Java's `int` guarantees. It states the exact result only when hp - dmg does not overflow. Otherwise it states the wrapped value's range and that it is congruent to hp - dmg.
