/** The rule chain chosen for a game mode: five general rules, an optional victory rule
    for the mode, and the publishing rule SendMessages, which must always be last. */
module RuleSets {
  import RuleProcessors

  datatype RuleKind =
    | KillOutOfBounds
    | CollisionRule
    | KillEntitiesRule
    | RemoveStrayBullets
    | RemoveStaleStateData
    | DeathmatchGameFinished
    | TeamplayGameFinished
    | SendMessages

  /** The game modes the chain construction distinguishes; `OtherMode` stands for every
      further constant of the game-mode enumeration, for which the switch has no case. */
  datatype GameMode = Deathmatch | Teamplay | OtherMode

  /** The rules applicable in any game mode, in chain order. */
  const GeneralRules: seq<RuleKind> :=
    [KillOutOfBounds, CollisionRule, KillEntitiesRule, RemoveStrayBullets, RemoveStaleStateData]

  function VictoryRules(mode: GameMode): seq<RuleKind> {
    match mode
    case Deathmatch => [DeathmatchGameFinished]
    case Teamplay => [TeamplayGameFinished]
    case OtherMode => []
  }

  /** getRulesForGameMode. */
  function GetRulesForGameMode(mode: GameMode): (r: seq<RuleKind>)
    ensures |r| == (if mode == OtherMode then 6 else 7)
    ensures r[..5] == [KillOutOfBounds, CollisionRule, KillEntitiesRule, RemoveStrayBullets, RemoveStaleStateData]
    ensures r[|r| - 1] == SendMessages
    ensures forall i :: 0 <= i < |r| - 1 ==> r[i] != SendMessages
    ensures mode == Deathmatch ==> r[5] == DeathmatchGameFinished
    ensures mode == Teamplay ==> r[5] == TeamplayGameFinished
    ensures forall i :: 0 <= i < |r| && (r[i] == DeathmatchGameFinished || r[i] == TeamplayGameFinished)
                        ==> i == |r| - 2 && mode != OtherMode
  {
    GeneralRules + VictoryRules(mode) + [SendMessages]
  }

  /** The rule objects of a chain, given what each kind of rule does to one event. */
  function Instantiate<E(!new)>(kinds: seq<RuleKind>, behaviour: RuleKind -> (E -> seq<E>)): (rs: seq<E -> seq<E>>)
    ensures |rs| == |kinds|
    ensures forall i :: 0 <= i < |kinds| ==> rs[i] == behaviour(kinds[i])
  {
    seq(|kinds|, i requires 0 <= i < |kinds| => behaviour(kinds[i]))
  }

  /** Whatever the rules do, the value of every mode's chain is what SendMessages makes of
      everything the rules before it let through. */
  lemma ChainEndsWithPublish<E(!new)>(mode: GameMode, behaviour: RuleKind -> (E -> seq<E>), events: seq<E>)
    ensures var kinds := GetRulesForGameMode(mode);
            var rs := Instantiate(kinds, behaviour);
            RuleProcessors.ProcessEventsForRules(rs, events)
            == RuleProcessors.ProcessEventsForRule(
                 RuleProcessors.ProcessEventsForRules(Instantiate(kinds[..|kinds| - 1], behaviour), events),
                 behaviour(SendMessages))
  {
    var kinds := GetRulesForGameMode(mode);
    var rs := Instantiate(kinds, behaviour);
    var front := Instantiate(kinds[..|kinds| - 1], behaviour);
    assert rs == front + [behaviour(SendMessages)];
    RuleProcessors.LastRuleSeesAll(front, behaviour(SendMessages), events);
  }
}
