/** The rule pipeline's view of an entity (GameEntity) and its health-bearing
    refinement (HealthGameEntity), as one tagged variant: the shared kinematic
    fields plus a `health` payload that only health-bearing kinds carry. */
module GameEntities {
  import opened Wrappers
  import opened Geometry

  const INT_MIN: int := -0x8000_0000
  const INT_MAX: int := 0x7fff_ffff

  /** Java `int` range. */
  predicate IsInt32(x: int) {
    INT_MIN <= x <= INT_MAX
  }

  /** Java `int` subtraction and addition wrap around modulo 2^32. */
  function Wrap32(x: int): (r: int)
    ensures IsInt32(r)
    ensures IsInt32(x) ==> r == x
    ensures (x - r) % 0x1_0000_0000 == 0
  {
    (x - INT_MIN) % 0x1_0000_0000 + INT_MIN
  }

  datatype Health = NoHealth | Hp(hp: int)

  /** `size` is None for every health-bearing entity: their constructor passes null. */
  datatype GameEntity = GameEntity(
    entityId: int,
    size: Option<Size>,
    position: Vector3,
    velocity: Vector3,
    acceleration: Vector3,
    direction: Polar,
    health: Health)

  /** The fields declared `final`. */
  predicate SameIdentity(a: GameEntity, b: GameEntity) {
    a.entityId == b.entityId && a.size == b.size
  }

  /** A plain entity built with the all-arguments constructor. */
  function NewGameEntity(id: int, size: Option<Size>, position: Vector3, velocity: Vector3,
                         acceleration: Vector3, direction: Polar): (r: GameEntity)
    ensures r.entityId == id && r.size == size && r.health == NoHealth
    ensures r.position == position && r.velocity == velocity
    ensures r.acceleration == acceleration && r.direction == direction
  {
    GameEntity(id, size, position, velocity, acceleration, direction, NoHealth)
  }

  /** The HealthGameEntity constructor: the hit box is left null and hp is taken as given. */
  function NewHealthEntity(id: int, hp: int, position: Vector3, velocity: Vector3,
                           acceleration: Vector3, direction: Polar): (r: GameEntity)
    ensures r.entityId == id && r.size == None && r.health == Hp(hp)
    ensures r.position == position && r.velocity == velocity
    ensures r.acceleration == acceleration && r.direction == direction
  {
    GameEntity(id, None, position, velocity, acceleration, direction, Hp(hp))
  }

  function SetPosition(e: GameEntity, p: Vector3): (r: GameEntity)
    ensures r.position == p && SameIdentity(r, e) && r.health == e.health
    ensures r.velocity == e.velocity && r.acceleration == e.acceleration && r.direction == e.direction
  {
    e.(position := p)
  }

  function SetVelocity(e: GameEntity, v: Vector3): (r: GameEntity)
    ensures r.velocity == v && SameIdentity(r, e) && r.health == e.health
    ensures r.position == e.position && r.acceleration == e.acceleration && r.direction == e.direction
  {
    e.(velocity := v)
  }

  function SetAcceleration(e: GameEntity, a: Vector3): (r: GameEntity)
    ensures r.acceleration == a && SameIdentity(r, e) && r.health == e.health
    ensures r.position == e.position && r.velocity == e.velocity && r.direction == e.direction
  {
    e.(acceleration := a)
  }

  function SetDirection(e: GameEntity, d: Polar): (r: GameEntity)
    ensures r.direction == d && SameIdentity(r, e) && r.health == e.health
    ensures r.position == e.position && r.velocity == e.velocity && r.acceleration == e.acceleration
  {
    e.(direction := d)
  }

  /** deepCopy: a new entity equal, field by field, to the original at the time of copying. */
  function DeepCopy(e: GameEntity): (r: GameEntity)
    ensures r == e
  {
    GameEntity(e.entityId, e.size, e.position, e.velocity, e.acceleration, e.direction,
               match e.health
               case NoHealth => NoHealth
               case Hp(h) => Hp(h))
  }

  /** HealthGameEntity.damage: hp decreases by `dmg` in 32-bit arithmetic, with no clamp
      at zero; nothing but hp changes. */
  function Damage(e: GameEntity, dmg: int): (r: GameEntity)
    requires e.health.Hp? && IsInt32(e.health.hp) && IsInt32(dmg)
    ensures r.health.Hp? && IsInt32(r.health.hp)
    ensures IsInt32(e.health.hp - dmg) ==> r.health.hp == e.health.hp - dmg
    ensures (e.health.hp - dmg - r.health.hp) % 0x1_0000_0000 == 0
    ensures SameIdentity(r, e) && r.position == e.position && r.velocity == e.velocity
    ensures r.acceleration == e.acceleration && r.direction == e.direction
  {
    e.(health := Hp(Wrap32(e.health.hp - dmg)))
  }

  /** Values congruent modulo 2^32 wrap to the same 32-bit value. */
  lemma WrapCongruent(x: int, y: int)
    requires (x - y) % 0x1_0000_0000 == 0
    ensures Wrap32(x) == Wrap32(y)
  {
    var k := (x - y) / 0x1_0000_0000;
    assert x - INT_MIN == (y - INT_MIN) + k * 0x1_0000_0000;
    ModShift(y - INT_MIN, k);
  }

  lemma ModShift(a: int, k: int)
    ensures (a + k * 0x1_0000_0000) % 0x1_0000_0000 == a % 0x1_0000_0000
  {
  }

  /** Damage with zero is a no-op. */
  lemma DamageZero(e: GameEntity)
    requires e.health.Hp? && IsInt32(e.health.hp)
    ensures Damage(e, 0) == e
  {
  }

  /** Two hits add up: damage(a); damage(b) is damage(a + b), sums taken in 32-bit arithmetic. */
  lemma DamageTwice(e: GameEntity, a: int, b: int)
    requires e.health.Hp? && IsInt32(e.health.hp) && IsInt32(a) && IsInt32(b)
    ensures Damage(Damage(e, a), b) == Damage(e, Wrap32(a + b))
  {
    var h := e.health.hp;
    var m := Wrap32(h - a);
    assert (h - a - m) % 0x1_0000_0000 == 0;
    WrapCongruent(m - b, h - a - b);
    var s := Wrap32(a + b);
    assert (a + b - s) % 0x1_0000_0000 == 0;
    WrapCongruent(h - s, h - a - b);
  }

  /** The damage scenario of the engine's unit test: a drone at full health hit by a
      bullet carrying 100 damage ends at full health minus 100, which is not clamped
      even when it is zero or negative. */
  lemma DroneHitByBullet(id: int, maxHealth: int, p: Vector3, v: Vector3, a: Vector3, d: Polar)
    requires IsInt32(maxHealth) && IsInt32(maxHealth - 100)
    ensures Damage(NewHealthEntity(id, maxHealth, p, v, a, d), 100).health == Hp(maxHealth - 100)
  {
  }

  /** A mutation the engine may apply to an entity. */
  datatype Update =
    | PositionUpdate(p: Vector3)
    | VelocityUpdate(v: Vector3)
    | AccelerationUpdate(a: Vector3)
    | DirectionUpdate(d: Polar)
    | DamageUpdate(dmg: int)

  predicate Applicable(e: GameEntity, u: Update) {
    u.DamageUpdate? ==> e.health.Hp? && IsInt32(e.health.hp) && IsInt32(u.dmg)
  }

  function Apply(e: GameEntity, u: Update): (r: GameEntity)
    requires Applicable(e, u)
    ensures r.health.Hp? == e.health.Hp?
    ensures e.health.Hp? && IsInt32(e.health.hp) ==> IsInt32(r.health.hp)
  {
    match u
    case PositionUpdate(p) => SetPosition(e, p)
    case VelocityUpdate(v) => SetVelocity(e, v)
    case AccelerationUpdate(a) => SetAcceleration(e, a)
    case DirectionUpdate(d) => SetDirection(e, d)
    case DamageUpdate(dmg) => Damage(e, dmg)
  }

  /** Updates fit a health-bearing entity with an in-range hp, or contain no damage. */
  predicate ApplicableAll(e: GameEntity, us: seq<Update>) {
    (e.health.Hp? && IsInt32(e.health.hp) && forall i :: 0 <= i < |us| ==> Applicable(e, us[i]) || !us[i].DamageUpdate?)
    || (forall i :: 0 <= i < |us| ==> !us[i].DamageUpdate?)
  }

  function ApplyAll(e: GameEntity, us: seq<Update>): (r: GameEntity)
    requires ApplicableAll(e, us)
    ensures r.health.Hp? == e.health.Hp?
    decreases |us|
  {
    if us == [] then e
    else
      assert Applicable(e, us[0]);
      ApplyAll(Apply(e, us[0]), us[1..])
  }

  /** `entityId` and `size` are final: no sequence of setter calls and hits changes them. */
  lemma {:induction false} FinalFieldsNeverChange(e: GameEntity, us: seq<Update>)
    requires ApplicableAll(e, us)
    ensures SameIdentity(ApplyAll(e, us), e)
    decreases |us|
  {
    if us != [] {
      assert Applicable(e, us[0]);
      var e1 := Apply(e, us[0]);
      assert ApplicableAll(e1, us[1..]) by {
        assert forall i :: 0 <= i < |us[1..]| ==> us[1..][i] == us[i + 1];
      }
      FinalFieldsNeverChange(e1, us[1..]);
    }
  }
}
