/** The drone tactic's framework part: which components the drone carries, the
    simulation lifecycle handlers it registers, and the two flags (`registered` with
    discovery, `initialized` tactics) that those handlers keep. Thread control and the
    calls into discovery and into the concrete tactic appear as an effect list; the
    discoverer's answers are inputs. */
module Tactic {
  import opened Wrappers

  // ---------------------------------------------------------------- components

  /** Which components are present (the component references that are non-null). */
  datatype Components = Components(radar: bool, gps: bool, engine: bool, gun: bool, radio: bool)

  const KnownComponents: set<string> := {"radar", "gps", "engine", "gun", "radio"}

  /** One case of hasComponents' switch: a recognised name asks for its component, any
      other name asks for nothing. */
  function Satisfied(c: Components, name: string): bool {
    if name == "radar" then c.radar
    else if name == "gps" then c.gps
    else if name == "engine" then c.engine
    else if name == "gun" then c.gun
    else if name == "radio" then c.radio
    else true
  }

  /** getAvailableComponents: the names of the present components. */
  function GetAvailableComponents(c: Components): (s: set<string>)
    ensures s <= KnownComponents
    ensures ("radar" in s <==> c.radar) && ("gps" in s <==> c.gps) && ("engine" in s <==> c.engine)
    ensures ("gun" in s <==> c.gun) && ("radio" in s <==> c.radio)
  {
    (if c.radar then {"radar"} else {}) + (if c.gps then {"gps"} else {})
    + (if c.engine then {"engine"} else {}) + (if c.radio then {"radio"} else {})
    + (if c.gun then {"gun"} else {})
  }

  /** hasComponents(names...): true for no names, unrecognised names are ignored, and
      otherwise every recognised name must be among the available components. */
  function HasComponents(c: Components, names: seq<string>): (r: bool)
    ensures r <==> forall i :: 0 <= i < |names| && names[i] in KnownComponents
                               ==> names[i] in GetAvailableComponents(c)
    decreases |names|
  {
    if names == [] then true
    else
      var rest := HasComponents(c, names[1..]);
      assert forall i :: 1 <= i < |names| ==> names[i] == names[1..][i - 1];
      Satisfied(c, names[0]) && rest
  }

  datatype MissingComponentsException = MissingComponentsException(required: seq<string>)

  /** validateRequiredComponents: throws, naming the required components, exactly when
      hasComponents is false. */
  function ValidateRequiredComponents(c: Components, required: seq<string>): (r: Option<MissingComponentsException>)
    ensures r.Some? <==> exists i :: 0 <= i < |required| && required[i] in KnownComponents
                                     && required[i] !in GetAvailableComponents(c)
    ensures r.Some? ==> r.value.required == required
  {
    if !HasComponents(c, required) then Some(MissingComponentsException(required)) else None
  }

  // ---------------------------------------------------------------- lifecycle

  datatype SimulationState = Init | Config | Running | Paused | Done

  datatype SimulationAction = ConfigAction | Start | Pause | Resume | Stop | GameOver

  /** The tactic's private operations. */
  datatype Call =
    | ConfigSimulation
    | StartSimulation
    | PauseSimulation
    | ResumeSimulation
    | StopSimulation
    | StopTactic

  datatype Registration = Registration(from: SimulationState, action: SimulationAction, to: SimulationState, call: Call)

  /** The handlers startTactic registers with the architecture event controller, in order. */
  const LifecycleTable: seq<Registration> := [
    Registration(Init, ConfigAction, Config, ConfigSimulation),
    Registration(Config, Start, Running, StartSimulation),
    Registration(Running, Pause, Paused, PauseSimulation),
    Registration(Paused, Resume, Running, ResumeSimulation),
    Registration(Config, Stop, Init, StopSimulation),
    Registration(Running, Stop, Init, StopSimulation),
    Registration(Paused, Stop, Init, StopSimulation),
    Registration(Running, GameOver, Done, StopSimulation)
  ]

  /** The calls a transition triggers: those registered for exactly that triple. */
  function CallsFor(from: SimulationState, action: SimulationAction, to: SimulationState): (cs: seq<Call>)
    ensures |cs| <= 1
    ensures forall c :: c in cs <==> Registration(from, action, to, c) in LifecycleTable
  {
    if from == Init && action == ConfigAction && to == Config then [ConfigSimulation]
    else if from == Config && action == Start && to == Running then [StartSimulation]
    else if from == Running && action == Pause && to == Paused then [PauseSimulation]
    else if from == Paused && action == Resume && to == Running then [ResumeSimulation]
    else if action == Stop && to == Init && from in {Config, Running, Paused} then [StopSimulation]
    else if from == Running && action == GameOver && to == Done then [StopSimulation]
    else []
  }

  /** The shape of the table: eight registrations on distinct triples; Stop leads from
      Config, Running or Paused to Init; GameOver leads from Running to Done; both stop
      the simulation; the other four are Init to Config, Config to Running and Running
      to Paused and back. */
  lemma LifecycleTableShape()
    ensures |LifecycleTable| == 8
    ensures forall i, j :: 0 <= i < j < |LifecycleTable| ==>
              (LifecycleTable[i].from, LifecycleTable[i].action, LifecycleTable[i].to)
              != (LifecycleTable[j].from, LifecycleTable[j].action, LifecycleTable[j].to)
    ensures forall r :: r in LifecycleTable && r.action == Stop ==>
              r.to == Init && r.from in {Config, Running, Paused} && r.call == StopSimulation
    ensures forall f :: f in {Config, Running, Paused} ==> Registration(f, Stop, Init, StopSimulation) in LifecycleTable
    ensures forall r :: r in LifecycleTable && r.action == GameOver ==>
              r.from == Running && r.to == Done && r.call == StopSimulation
    ensures forall r :: r in LifecycleTable && r.call == StopSimulation ==> r.action in {Stop, GameOver}
  {
    LifecycleTableDistinct();
    LifecycleTableStops();
  }

  lemma LifecycleTableDistinct()
    ensures forall i, j :: 0 <= i < j < |LifecycleTable| ==>
              (LifecycleTable[i].from, LifecycleTable[i].action, LifecycleTable[i].to)
              != (LifecycleTable[j].from, LifecycleTable[j].action, LifecycleTable[j].to)
  {
    forall i, j | 0 <= i < j < |LifecycleTable|
      ensures (LifecycleTable[i].from, LifecycleTable[i].action, LifecycleTable[i].to)
              != (LifecycleTable[j].from, LifecycleTable[j].action, LifecycleTable[j].to)
    {
      assert CallsFor(LifecycleTable[i].from, LifecycleTable[i].action, LifecycleTable[i].to)
             == [LifecycleTable[i].call];
    }
  }

  lemma LifecycleTableStops()
    ensures forall r :: r in LifecycleTable && r.action == Stop ==>
              r.to == Init && r.from in {Config, Running, Paused} && r.call == StopSimulation
    ensures forall f :: f in {Config, Running, Paused} ==> Registration(f, Stop, Init, StopSimulation) in LifecycleTable
    ensures forall r :: r in LifecycleTable && r.action == GameOver ==>
              r.from == Running && r.to == Done && r.call == StopSimulation
    ensures forall r :: r in LifecycleTable && r.call == StopSimulation ==> r.action in {Stop, GameOver}
  {
  }

  // ---------------------------------------------------------------- flags

  datatype TacticState = TacticState(registered: bool, initialized: bool)

  /** A fresh tactic: not registered, not initialized. */
  const InitialState := TacticState(false, false)

  /** What the tactic asks of its thread, of discovery and of the concrete tactic. */
  datatype Effect =
    | StartThread | PauseThread | ResumeThread | StopThread
    | DiscoveryRegister | DiscoveryUnregister
    | InitializeTactics | FinalizeTactics

  /** The discoverer's answer to register: success, DuplicateName or IOException. */
  datatype RegisterAnswer = RegisterOk | RegisterDuplicateName | RegisterIOError

  /** The discoverer's answers to whatever the call asks of it. */
  datatype Answers = Answers(register: RegisterAnswer, unregisterOk: bool)

  datatype Outcome = Outcome(state: TacticState, effects: seq<Effect>)

  /** configSimulation: register with discovery; only a call that returns normally sets
      the flag, and a failure is logged and leaves it as it was. */
  function Configure(s: TacticState, answer: RegisterAnswer): (o: Outcome)
    ensures o.effects == [DiscoveryRegister]
    ensures o.state.registered <==> answer == RegisterOk || s.registered
    ensures o.state.initialized == s.initialized
  {
    Outcome(if answer == RegisterOk then s.(registered := true) else s, [DiscoveryRegister])
  }

  /** unconfigSimulation: unregister only when registered; only a successful unregister
      clears the flag. */
  function Unconfigure(s: TacticState, unregisterOk: bool): (o: Outcome)
    ensures DiscoveryUnregister in o.effects <==> s.registered
    ensures o.effects == [] || o.effects == [DiscoveryUnregister]
    ensures o.state.registered <==> s.registered && !unregisterOk
    ensures o.state.initialized == s.initialized
  {
    if s.registered then
      Outcome(if unregisterOk then s.(registered := false) else s, [DiscoveryUnregister])
    else Outcome(s, [])
  }

  /** One private operation. */
  function Perform(s: TacticState, call: Call, answers: Answers): (o: Outcome)
    ensures call == StartSimulation ==> o.state.initialized
    ensures call == StopSimulation ==> !o.state.initialized
    ensures call != StartSimulation && call != StopSimulation ==> o.state.initialized == s.initialized
    ensures InitializeTactics in o.effects <==> call == StartSimulation && !s.initialized
    ensures FinalizeTactics in o.effects <==> call == StopSimulation && s.initialized
    ensures DiscoveryUnregister in o.effects ==> s.registered
  {
    match call
    case ConfigSimulation => Configure(s, answers.register)
    case StartSimulation =>
      if !s.initialized then Outcome(s.(initialized := true), [StartThread, InitializeTactics])
      else Outcome(s, [StartThread])
    case PauseSimulation => Outcome(s, [PauseThread])
    case ResumeSimulation => Outcome(s, [ResumeThread])
    case StopSimulation =>
      var u := Unconfigure(s, answers.unregisterOk);
      var fin := if u.state.initialized then [FinalizeTactics] else [];
      Outcome(u.state.(initialized := false), [StopThread] + u.effects + fin)
    case StopTactic =>
      var u := Unconfigure(s, answers.unregisterOk);
      Outcome(u.state, [StopThread] + u.effects)
  }

  /** A lifecycle transition runs the calls registered for it. */
  function OnTransition(s: TacticState, from: SimulationState, action: SimulationAction, to: SimulationState,
                        answers: Answers): (o: Outcome)
    ensures CallsFor(from, action, to) == [] ==> o == Outcome(s, [])
    ensures forall c :: Registration(from, action, to, c) in LifecycleTable ==> o == Perform(s, c, answers)
  {
    var cs := CallsFor(from, action, to);
    if cs == [] then Outcome(s, []) else Perform(s, cs[0], answers)
  }

  /** Starting a configured simulation leaves the tactic initialized, and every stop or
      game-over transition the lifecycle registers leaves it finalized; configuring records
      the registration when discovery accepts it. */
  lemma LifecycleFlags(s: TacticState, answers: Answers)
    ensures OnTransition(s, Config, Start, Running, answers).state.initialized
    ensures forall r :: r in LifecycleTable && (r.action == Stop || r.action == GameOver) ==>
              !OnTransition(s, r.from, r.action, r.to, answers).state.initialized
    ensures OnTransition(s, Init, ConfigAction, Config, answers).state.registered
            <==> answers.register == RegisterOk || s.registered
  {
    LifecycleTableShape();
    assert Registration(Config, Start, Running, StartSimulation) in LifecycleTable;
    assert Registration(Init, ConfigAction, Config, ConfigSimulation) in LifecycleTable;
  }

  /** handleKillMessage: a kill message addressed to this drone stops the simulation;
      one addressed to another drone changes nothing. */
  function HandleKillMessage(s: TacticState, myIdentifier: string, killIdentifier: string, answers: Answers): (o: Outcome)
    ensures killIdentifier == myIdentifier ==> StopThread in o.effects && !o.state.initialized
    ensures killIdentifier != myIdentifier ==> o == Outcome(s, [])
  {
    if killIdentifier == myIdentifier then Perform(s, StopSimulation, answers) else Outcome(s, [])
  }

  predicate IsTacticCall(e: Effect) {
    e.InitializeTactics? || e.FinalizeTactics?
  }

  /** The calls to the concrete tactic among the effects, in order. */
  function TacticCalls(effects: seq<Effect>): (r: seq<Effect>)
    ensures forall e :: e in r ==> e == InitializeTactics || e == FinalizeTactics
  {
    if effects == [] then []
    else (if IsTacticCall(effects[0]) then [effects[0]] else []) + TacticCalls(effects[1..])
  }

  lemma {:induction false} TacticCallsAppend(x: seq<Effect>, y: seq<Effect>)
    ensures TacticCalls(x + y) == TacticCalls(x) + TacticCalls(y)
    decreases |x|
  {
    if x == [] {
      assert x + y == y;
    } else {
      var head := if IsTacticCall(x[0]) then [x[0]] else [];
      assert (x + y)[0] == x[0];
      assert (x + y)[1..] == x[1..] + y;
      TacticCallsAppend(x[1..], y);
      calc {
        TacticCalls(x + y);
        head + TacticCalls(x[1..] + y);
        head + (TacticCalls(x[1..]) + TacticCalls(y));
        (head + TacticCalls(x[1..])) + TacticCalls(y);
      }
    }
  }

  /** Initialize and finalize strictly alternate, the first one determined by the flag. */
  ghost predicate AlternatesFrom(calls: seq<Effect>, initialized: bool)
    decreases |calls|
  {
    calls == []
    || (calls[0] == (if initialized then FinalizeTactics else InitializeTactics)
        && AlternatesFrom(calls[1..], !initialized))
  }

  /** Where an alternating run of calls leaves the flag. */
  function FlagAfter(calls: seq<Effect>, initialized: bool): bool {
    if calls == [] then initialized else calls[|calls| - 1] == InitializeTactics
  }

  function RunCalls(s: TacticState, steps: seq<(Call, Answers)>): (o: Outcome)
    decreases |steps|
  {
    if steps == [] then Outcome(s, [])
    else
      var first := Perform(s, steps[0].0, steps[0].1);
      var rest := RunCalls(first.state, steps[1..]);
      Outcome(rest.state, first.effects + rest.effects)
  }

  lemma TacticCallsOne(x: Effect)
    ensures TacticCalls([x]) == if IsTacticCall(x) then [x] else []
  {
    assert [x][1..] == [];
  }

  lemma TacticCallsTwo(x: Effect, y: Effect)
    ensures TacticCalls([x, y]) == TacticCalls([x]) + TacticCalls([y])
  {
    assert [x, y] == [x] + [y];
    TacticCallsAppend([x], [y]);
  }

  /** Unregistering never calls into the concrete tactic. */
  lemma UnconfigureCallsNoTactic(s: TacticState, unregisterOk: bool)
    ensures TacticCalls(Unconfigure(s, unregisterOk).effects) == []
  {
    if s.registered {
      TacticCallsOne(DiscoveryUnregister);
    }
  }

  /** Stopping calls finalizeTactics exactly when initialised. */
  lemma StopCallsTactic(s: TacticState, answers: Answers)
    ensures TacticCalls(Perform(s, StopSimulation, answers).effects)
            == if s.initialized then [FinalizeTactics] else []
  {
    var u := Unconfigure(s, answers.unregisterOk);
    var fin := if u.state.initialized then [FinalizeTactics] else [];
    assert Perform(s, StopSimulation, answers).effects == ([StopThread] + u.effects) + fin;
    UnconfigureCallsNoTactic(s, answers.unregisterOk);
    TacticCallsOne(StopThread);
    TacticCallsOne(FinalizeTactics);
    TacticCallsAppend([StopThread], u.effects);
    TacticCallsAppend([StopThread] + u.effects, fin);
  }

  /** Stopping the tactic alone never calls into it. */
  lemma StopTacticCallsNoTactic(s: TacticState, answers: Answers)
    ensures TacticCalls(Perform(s, StopTactic, answers).effects) == []
  {
    var u := Unconfigure(s, answers.unregisterOk);
    assert Perform(s, StopTactic, answers).effects == [StopThread] + u.effects;
    UnconfigureCallsNoTactic(s, answers.unregisterOk);
    TacticCallsOne(StopThread);
    TacticCallsAppend([StopThread], u.effects);
  }

  lemma OneCallTacticCalls(s: TacticState, call: Call, answers: Answers)
    ensures var o := Perform(s, call, answers);
            TacticCalls(o.effects) == (if call == StartSimulation && !s.initialized then [InitializeTactics]
                                       else if call == StopSimulation && s.initialized then [FinalizeTactics]
                                       else [])
  {
    match call {
      case StartSimulation =>
        TacticCallsOne(StartThread);
        TacticCallsOne(InitializeTactics);
        TacticCallsTwo(StartThread, InitializeTactics);
      case StopSimulation =>
        StopCallsTactic(s, answers);
      case StopTactic =>
        StopTacticCallsNoTactic(s, answers);
      case ConfigSimulation =>
        TacticCallsOne(DiscoveryRegister);
      case PauseSimulation =>
        TacticCallsOne(PauseThread);
      case ResumeSimulation =>
        TacticCallsOne(ResumeThread);
    }
  }

  /** Prefixing at most one call that matches the flag keeps the calls alternating. */
  lemma AlternatesPrefix(c1: seq<Effect>, c2: seq<Effect>, initialized: bool, mid: bool)
    requires || (c1 == [] && mid == initialized)
             || (c1 == [InitializeTactics] && !initialized && mid)
             || (c1 == [FinalizeTactics] && initialized && !mid)
    requires AlternatesFrom(c2, mid)
    ensures AlternatesFrom(c1 + c2, initialized)
    ensures FlagAfter(c1 + c2, initialized) == FlagAfter(c2, mid)
  {
    if c1 != [] {
      assert (c1 + c2)[1..] == c2;
      if c2 != [] {
        assert (c1 + c2)[|c1 + c2| - 1] == c2[|c2| - 1];
      }
    } else {
      assert c1 + c2 == c2;
    }
  }

  /** Over any sequence of lifecycle calls, kill messages and stops, initializeTactics and
      finalizeTactics strictly alternate (start initializes only when not initialized, stop
      finalizes only when initialized), and the flag records which came last. */
  lemma {:induction false} InitializeFinalizeAlternate(s: TacticState, steps: seq<(Call, Answers)>)
    ensures var o := RunCalls(s, steps);
            AlternatesFrom(TacticCalls(o.effects), s.initialized)
            && o.state.initialized == FlagAfter(TacticCalls(o.effects), s.initialized)
    decreases |steps|
  {
    if steps != [] {
      var first := Perform(s, steps[0].0, steps[0].1);
      var rest := RunCalls(first.state, steps[1..]);
      assert RunCalls(s, steps) == Outcome(rest.state, first.effects + rest.effects);
      OneCallTacticCalls(s, steps[0].0, steps[0].1);
      InitializeFinalizeAlternate(first.state, steps[1..]);
      TacticCallsAppend(first.effects, rest.effects);
      AlternatesPrefix(TacticCalls(first.effects), TacticCalls(rest.effects), s.initialized, first.state.initialized);
    }
  }
}
