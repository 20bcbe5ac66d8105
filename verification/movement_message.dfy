/** The movement protocol message: three optional fields, each absent until set, and a
    fixed topic. A Java null is Option.None. */
module MovementMessages {
  import opened Wrappers
  import opened Geometry

  /** The message topics the modelled code names. */
  datatype MessageTopic = Movements | StateUpdates

  datatype MovementMessage = MovementMessage(identifier: Option<string>, direction: Option<Polar>,
                                             acceleration: Option<Vector3>)

  /** A fresh message: all three fields null. */
  function NewMovementMessage(): (m: MovementMessage)
    ensures GetIdentifier(m).None? && GetDirection(m).None? && GetAcceleration(m).None?
  {
    MovementMessage(None, None, None)
  }

  /** The getters wrap the field with Optional.ofNullable. */
  function GetIdentifier(m: MovementMessage): Option<string> { m.identifier }
  function GetDirection(m: MovementMessage): Option<Polar> { m.direction }
  function GetAcceleration(m: MovementMessage): Option<Vector3> { m.acceleration }

  /** Each setter's value (None for null) is what its getter returns next, and the other
      two fields keep theirs. */
  function SetIdentifier(m: MovementMessage, identifier: Option<string>): (r: MovementMessage)
    ensures GetIdentifier(r) == identifier
    ensures GetDirection(r) == GetDirection(m) && GetAcceleration(r) == GetAcceleration(m)
  {
    m.(identifier := identifier)
  }

  function SetDirection(m: MovementMessage, direction: Option<Polar>): (r: MovementMessage)
    ensures GetDirection(r) == direction
    ensures GetIdentifier(r) == GetIdentifier(m) && GetAcceleration(r) == GetAcceleration(m)
  {
    m.(direction := direction)
  }

  function SetAcceleration(m: MovementMessage, acceleration: Option<Vector3>): (r: MovementMessage)
    ensures GetAcceleration(r) == acceleration
    ensures GetIdentifier(r) == GetIdentifier(m) && GetDirection(r) == GetDirection(m)
  {
    m.(acceleration := acceleration)
  }

  /** Setting the three fields in any order builds the same message, and a message is
      fully described by its three getters. */
  lemma SettersCommute(m: MovementMessage, i: Option<string>, d: Option<Polar>, a: Option<Vector3>)
    ensures SetAcceleration(SetDirection(SetIdentifier(m, i), d), a)
            == SetIdentifier(SetDirection(SetAcceleration(m, a), d), i)
    ensures SetAcceleration(SetDirection(SetIdentifier(m, i), d), a) == MovementMessage(i, d, a)
  {
  }

  /** getTopics: the message is published on the movements topic only. */
  function GetTopics(m: MovementMessage): (topics: seq<MessageTopic>)
    ensures |topics| == 1 && topics[0] == Movements
  {
    [Movements]
  }
}
