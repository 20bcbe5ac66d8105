/** The example tactic's team messages (MyTacticMessage and its subclass
    InstructionMessage): a message is a string-to-string map carrying the sender's
    identifier, the message type and the subclass's data, and its type must be one of a
    fixed registry of six names. */
module TacticMessages {
  import opened Wrappers

  /** TacticMessage: the key/value payload sent between the drones of a team. */
  type TacticMessage = map<string, string>

  const HEARTBEAT_MESSAGE: string := "HeartbeatMessage"
  const RADAR_IMAGE_MESSAGE: string := "RadarImageMessage"
  const INSTRUCTION_MESSAGE: string := "InstructionMessage"
  const FIRED_BULLET_MESSAGE: string := "FIRED_BULLET_MESSAGE"
  const SEARCH_LEADER_MESSAGE: string := "SEARCH_LEADER_MESSAGE"
  const IS_LEADER_MESSAGE: string := "IS_LEADER_MESSAGE"

  /** MESSAGETYPES.getMessageTypes: the registered names, one per public constant. */
  const MessageTypes: seq<string> := [HEARTBEAT_MESSAGE, RADAR_IMAGE_MESSAGE, INSTRUCTION_MESSAGE,
                                      FIRED_BULLET_MESSAGE, SEARCH_LEADER_MESSAGE, IS_LEADER_MESSAGE]

  /** A message subclass: its simple name, and the type it reports when it overrides getType. */
  datatype MessageClass = MessageClass(simpleName: string, typeOverride: Option<string>)

  /** getType: by default the class's simple name. */
  function GetType(c: MessageClass): (t: string)
    ensures c.typeOverride.None? ==> t == c.simpleName
    ensures c.typeOverride.Some? ==> t == c.typeOverride.value
  {
    c.typeOverride.GetOr(c.simpleName)
  }

  datatype InvalidMessageTypeException = InvalidMessageTypeException(invalidMessageType: string)

  /** getMessage: refuse an unregistered type; otherwise put the tactic's identifier under
      "id" and the type under "type", then every data entry, which wins on a clash. */
  function GetMessage(tacticIdentifier: string, c: MessageClass, data: map<string, string>)
    : (r: Result<TacticMessage, InvalidMessageTypeException>)
    ensures r.Failure? <==> GetType(c) !in MessageTypes
    ensures r.Failure? ==> r.error == InvalidMessageTypeException(GetType(c))
    ensures r.Success? ==> r.value.Keys == data.Keys + {"id", "type"}
    ensures r.Success? ==> forall k :: k in data ==> r.value[k] == data[k]
    ensures r.Success? && "id" !in data ==> r.value["id"] == tacticIdentifier
    ensures r.Success? && "type" !in data ==> r.value["type"] == GetType(c)
  {
    if GetType(c) !in MessageTypes then Failure(InvalidMessageTypeException(GetType(c)))
    else
      var message: TacticMessage := map[];
      var message := message["id" := tacticIdentifier];
      var message := message["type" := GetType(c)];
      Success(message + data)
  }

  /** checkType(message, String): false for a null type, otherwise whether the message's
      "type" entry equals it (an absent entry equals nothing). */
  function CheckType(message: TacticMessage, messageType: Option<string>): (b: bool)
    ensures b <==> messageType.Some? && "type" in message && message["type"] == messageType.value
  {
    match messageType
    case None => false
    case Some(t) => "type" in message && message["type"] == t
  }

  /** checkType(message, Class): whether the message's "type" entry is the class's simple name. */
  function CheckTypeOfClass(message: TacticMessage, c: MessageClass): (b: bool)
    ensures b <==> "type" in message && message["type"] == c.simpleName
  {
    "type" in message && c.simpleName == message["type"]
  }

  /** A built message carries its own type unless the data overwrote the "type" entry:
      the receiving side's string check recognises it, and so does the class check when
      the class does not override getType. */
  lemma BuiltMessageChecksType(tacticIdentifier: string, c: MessageClass, data: map<string, string>)
    requires GetType(c) in MessageTypes
    ensures var m := GetMessage(tacticIdentifier, c, data).value;
            && ("type" !in data ==> CheckType(m, Some(GetType(c))))
            && ("type" !in data && c.typeOverride.None? ==> CheckTypeOfClass(m, c))
            && ("type" in data ==> (CheckType(m, Some(GetType(c))) <==> data["type"] == GetType(c)))
  {
  }

  /** The two checks agree on classes that keep the default type. */
  lemma ClassCheckIsNameCheck(message: TacticMessage, c: MessageClass)
    ensures CheckTypeOfClass(message, c) == CheckType(message, Some(c.simpleName))
  {
  }

  // ---------------------------------------------------------------- InstructionMessage

  datatype InstructionType = Move | Shoot

  /** The enum constant's name(). */
  function InstructionTypeName(t: InstructionType): (n: string)
    ensures n == "MOVE" || n == "SHOOT"
    ensures (t == Move) == (n == "MOVE")
    ensures (t == Shoot) == (n == "SHOOT")
  {
    match t
    case Move => "MOVE"
    case Shoot => "SHOOT"
  }

  /** Distinct constants have distinct names, so the name identifies the instruction. */
  lemma InstructionTypeNameInjective(a: InstructionType, b: InstructionType)
    ensures InstructionTypeName(a) == InstructionTypeName(b) ==> a == b
  {
    assert "MOVE" != "SHOOT" by {
      assert "MOVE"[0] != "SHOOT"[0];
    }
  }

  const InstructionMessageClass: MessageClass := MessageClass("InstructionMessage", None)

  /** The constructor's data map: the instruction type under the enum's simple name, the
      receiver as given, and the target vector's string form. */
  function InstructionData(t: InstructionType, instructionIsFor: string, target: string): (d: map<string, string>)
    ensures d.Keys == {"InstructionType", "receiver", "target"}
    ensures d["InstructionType"] == InstructionTypeName(t)
    ensures d["receiver"] == instructionIsFor
    ensures d["target"] == target
  {
    map["InstructionType" := InstructionTypeName(t), "receiver" := instructionIsFor, "target" := target]
  }

  lemma DistinctKeys()
    ensures "id" != "InstructionType" && "id" != "receiver" && "id" != "target"
    ensures "type" != "InstructionType" && "type" != "receiver" && "type" != "target"
  {
    assert "id"[0] != "InstructionType"[0] && "id"[0] != "receiver"[0] && "id"[0] != "target"[0];
    assert "type"[0] != "InstructionType"[0] && "type"[0] != "receiver"[0];
    assert "type"[1] != "target"[1];
  }

  /** An instruction message's type is registered, so building it never throws; the
      message has exactly the identifier, the type and the three data entries, with no
      clash between them, and the receiving side recognises it by class. */
  lemma InstructionMessageBuilds(tacticIdentifier: string, t: InstructionType, instructionIsFor: string, target: string)
    ensures var r := GetMessage(tacticIdentifier, InstructionMessageClass, InstructionData(t, instructionIsFor, target));
            && r.Success?
            && r.value.Keys == {"id", "type", "InstructionType", "receiver", "target"}
            && r.value["id"] == tacticIdentifier
            && r.value["type"] == INSTRUCTION_MESSAGE
            && r.value["InstructionType"] == InstructionTypeName(t)
            && r.value["receiver"] == instructionIsFor
            && r.value["target"] == target
            && CheckTypeOfClass(r.value, InstructionMessageClass)
  {
    DistinctKeys();
    assert GetType(InstructionMessageClass) == MessageTypes[2];
  }
}
