/**
  The health bookkeeping of a game entity: a current health, a ceiling,
  a lootable flag and the active flag of the object it lives on. Damage
  and healing change the health in place, clamp it, and then raise the
  health-change notification; damage that leaves the entity at zero health
  runs the death handler, which deactivates the object.

  The notifications an entity raises are recorded, in order, in a ghost
  trace. Each operation is specified by a function on a `Snapshot` of the
  entity's state, and the class's methods are proved to follow those
  functions.
 */
module Entities {
  import opened Int32

  /** The ceiling a newly created entity starts with. */
  const DefaultMaxHealth: int32 := 100

  /** One observable call out of the entity, in the order it happens. */
  datatype Event =
    | HealthChange(health: int32)    // the health-change event, raised with the new health
    | Death(attackOwner: Entity?)    // the death handler, run with the attacker it was given

  /** The whole state of an entity, including the notifications raised so far. */
  datatype Snapshot = Snapshot(
    health: int32,
    maxHealth: int32,
    isLootable: bool,
    active: bool,
    trace: seq<Event>)

  function Max(x: int, y: int): int { if x < y then y else x }
  function Min(x: int, y: int): int { if x < y then x else y }

  /** The state of an entity that has just been created. */
  function Spawned(): (s: Snapshot)
    ensures s.health == 0 && s.maxHealth == 100
    ensures !s.isLootable && s.active && s.trace == []
  {
    Snapshot(0, DefaultMaxHealth, false, true, [])
  }

  /** The base death handler: deactivates the object and touches nothing else. */
  function Died(s: Snapshot, attackOwner: Entity?): (r: Snapshot)
    ensures !r.active
    ensures r.health == s.health && r.maxHealth == s.maxHealth && r.isLootable == s.isLootable
    ensures r.trace == s.trace + [Death(attackOwner)]
  {
    s.(active := false, trace := s.trace + [Death(attackOwner)])
  }

  /**
    Taking damage: subtract (with 32-bit wrap-around), clamp at zero from
    below only, notify the new health, then die if the health is zero.
   */
  function Damaged(s: Snapshot, attackOwner: Entity?, damageAmount: int32): (r: Snapshot)
    ensures r.health >= 0
    ensures InRange(s.health as int - damageAmount as int) ==>
              r.health as int == Max(s.health as int - damageAmount as int, 0)
    ensures r.maxHealth == s.maxHealth && r.isLootable == s.isLootable
    ensures r.active == (s.active && r.health != 0)
    ensures r.trace == s.trace + [HealthChange(r.health)]
                       + (if r.health == 0 then [Death(attackOwner)] else [])
  {
    var subtracted := Sub(s.health, damageAmount);
    var clamped := if subtracted <= 0 then 0 else subtracted;
    var notified := s.(health := clamped, trace := s.trace + [HealthChange(clamped)]);
    if clamped == 0 then Died(notified, attackOwner) else notified
  }

  /**
    Taking health points: add (with 32-bit wrap-around), clamp at the
    ceiling from above only, notify the new health. Never dies.
   */
  function Healed(s: Snapshot, healthIncreaseAmount: int32): (r: Snapshot)
    ensures r.health <= s.maxHealth
    ensures InRange(s.health as int + healthIncreaseAmount as int) ==>
              r.health as int == Min(s.health as int + healthIncreaseAmount as int, s.maxHealth as int)
    ensures r.maxHealth == s.maxHealth && r.isLootable == s.isLootable && r.active == s.active
    ensures r.trace == s.trace + [HealthChange(r.health)]
  {
    var added := Add(s.health, healthIncreaseAmount);
    var clamped := if added > s.maxHealth then s.maxHealth else added;
    s.(health := clamped, trace := s.trace + [HealthChange(clamped)])
  }

  class Entity {
    var health: int32
    var maxHealth: int32
    var isLootable: bool
    /** The active flag of the object the entity is attached to. */
    var active: bool
    /** Every notification raised so far, oldest first. */
    ghost var trace: seq<Event>

    ghost function State(): Snapshot
      reads this
    {
      Snapshot(health, maxHealth, isLootable, active, trace)
    }

    /** Health has no initializer, so it starts at 0; the ceiling starts at 100. */
    constructor ()
      ensures State() == Spawned()
    {
      health := 0;
      maxHealth := DefaultMaxHealth;
      isLootable := false;
      active := true;
      trace := [];
    }

    method TakeDamage(attackOwner: Entity?, damageAmount: int32)
      modifies this
      ensures State() == Damaged(old(State()), attackOwner, damageAmount)
    {
      health := Sub(health, damageAmount);
      if health <= 0 {
        health := 0;
      }
      trace := trace + [HealthChange(health)];
      if health == 0 {
        OnDeath(attackOwner);
      }
    }

    method OnDeath(attackOwner: Entity?)
      modifies this
      ensures State() == Died(old(State()), attackOwner)
    {
      active := false;
      trace := trace + [Death(attackOwner)];
    }

    method TakeHealthPoints(healthIncreaseAmount: int32)
      modifies this
      ensures State() == Healed(old(State()), healthIncreaseAmount)
    {
      health := Add(health, healthIncreaseAmount);
      if health > maxHealth {
        health := maxHealth;
      }
      trace := trace + [HealthChange(health)];
    }
  }
}
