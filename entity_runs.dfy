/**
  What an entity's state and notification stream look like after a whole
  sequence of calls to its public operations, and the properties of single
  calls that the clamping rules do and do not give.
 */
module EntityRuns {
  import opened Int32
  import opened Entities

  /** A call to one of the entity's public operations. */
  datatype Call =
    | DamageCall(attackOwner: Entity?, damageAmount: int32)
    | HealCall(healthIncreaseAmount: int32)
    | DeathCall(attackOwner: Entity?)

  function Apply(s: Snapshot, c: Call): Snapshot {
    match c
    case DamageCall(owner, amount) => Damaged(s, owner, amount)
    case HealCall(amount) => Healed(s, amount)
    case DeathCall(owner) => Died(s, owner)
  }

  /** The state after making `calls`, in order, starting from `s`. */
  function Run(s: Snapshot, calls: seq<Call>): Snapshot
    decreases |calls|
  {
    if calls == [] then s else Run(Apply(s, calls[0]), calls[1..])
  }

  function Repeat<T>(xs: seq<T>, n: nat): seq<T> {
    if n == 0 then [] else xs + Repeat(xs, n - 1)
  }

  /** Health lies between zero and the ceiling. */
  predicate Healthy(s: Snapshot) {
    0 <= s.health <= s.maxHealth
  }

  /** A call with a non-negative amount, and a heal that cannot overflow past the ceiling. */
  predicate Benign(maxHealth: int32, c: Call) {
    match c
    case DamageCall(_, amount) => amount >= 0
    case HealCall(amount) => amount >= 0 && InRange(maxHealth as int + amount as int)
    case DeathCall(_) => true
  }

  predicate AllBenign(maxHealth: int32, calls: seq<Call>) {
    forall i :: 0 <= i < |calls| ==> Benign(maxHealth, calls[i])
  }

  predicate NoDirectDeath(calls: seq<Call>) {
    forall i :: 0 <= i < |calls| ==> !calls[i].DeathCall?
  }

  // ---------------------------------------------------------------- whole runs

  /** No operation changes the ceiling or the lootable flag, and notifications are only ever appended. */
  lemma {:induction false} RunKeepsConfiguration(s: Snapshot, calls: seq<Call>)
    ensures Run(s, calls).maxHealth == s.maxHealth
    ensures Run(s, calls).isLootable == s.isLootable
    ensures s.trace <= Run(s, calls).trace
    decreases |calls|
  {
    if calls != [] {
      RunKeepsConfiguration(Apply(s, calls[0]), calls[1..]);
    }
  }

  /** An entity that is never created lootable never becomes lootable. */
  lemma NeverLootable(calls: seq<Call>)
    ensures !Run(Spawned(), calls).isLootable
    ensures Run(Spawned(), calls).maxHealth == DefaultMaxHealth
  {
    RunKeepsConfiguration(Spawned(), calls);
  }

  /** With non-negative amounts that do not overflow, health stays within [0, ceiling]. */
  lemma {:induction false} RunPreservesHealthy(s: Snapshot, calls: seq<Call>)
    requires Healthy(s)
    requires AllBenign(s.maxHealth, calls)
    ensures Healthy(Run(s, calls))
    decreases |calls|
  {
    if calls != [] {
      var t := Apply(s, calls[0]);
      assert Benign(s.maxHealth, calls[0]);
      assert AllBenign(t.maxHealth, calls[1..]) by {
        forall i | 0 <= i < |calls[1..]| ensures Benign(t.maxHealth, calls[1..][i]) {
          assert calls[1..][i] == calls[i + 1];
        }
      }
      RunPreservesHealthy(t, calls[1..]);
    }
  }

  /** Under the same conditions, every health value a listener is told lies within [0, ceiling]. */
  lemma {:induction false} RunNotifiesWithinBounds(s: Snapshot, calls: seq<Call>)
    requires Healthy(s)
    requires AllBenign(s.maxHealth, calls)
    ensures var r := Run(s, calls);
      |s.trace| <= |r.trace| &&
      forall i :: |s.trace| <= i < |r.trace| && r.trace[i].HealthChange? ==>
        0 <= r.trace[i].health <= s.maxHealth
    decreases |calls|
  {
    RunKeepsConfiguration(s, calls);
    if calls != [] {
      var t := Apply(s, calls[0]);
      assert Benign(s.maxHealth, calls[0]);
      assert AllBenign(t.maxHealth, calls[1..]) by {
        forall i | 0 <= i < |calls[1..]| ensures Benign(t.maxHealth, calls[1..][i]) {
          assert calls[1..][i] == calls[i + 1];
        }
      }
      RunNotifiesWithinBounds(t, calls[1..]);
      RunKeepsConfiguration(t, calls[1..]);
      var r := Run(s, calls);
      forall i | |s.trace| <= i < |r.trace| && r.trace[i].HealthChange?
        ensures 0 <= r.trace[i].health <= s.maxHealth
      {
        if i < |t.trace| {
          assert r.trace[i] == t.trace[i];
        }
      }
    }
  }

  /** The object ends up active exactly when it started active and no death handler ran. */
  lemma {:induction false} RunActiveIffNoDeath(s: Snapshot, calls: seq<Call>)
    ensures var r := Run(s, calls);
      |s.trace| <= |r.trace| &&
      (r.active <==> s.active && forall i :: |s.trace| <= i < |r.trace| ==> !r.trace[i].Death?)
    decreases |calls|
  {
    RunKeepsConfiguration(s, calls);
    if calls != [] {
      var t := Apply(s, calls[0]);
      RunActiveIffNoDeath(t, calls[1..]);
      RunKeepsConfiguration(t, calls[1..]);
      var r := Run(s, calls);
      assert forall i :: |s.trace| <= i < |t.trace| ==> r.trace[i] == t.trace[i];
      match calls[0]
      case DamageCall(owner, amount) =>
        if t.health == 0 {
          assert t.trace[|t.trace| - 1].Death?;
        }
      case HealCall(_) =>
      case DeathCall(_) =>
        assert t.trace[|t.trace| - 1].Death?;
    }
  }

  /**
    When the death handler is reached only through damage, every death is
    announced immediately after the health-change notification carrying 0.
   */
  lemma {:induction false} DeathFollowsZeroNotification(s: Snapshot, calls: seq<Call>)
    requires NoDirectDeath(calls)
    ensures var r := Run(s, calls);
      |s.trace| <= |r.trace| &&
      forall i :: |s.trace| <= i < |r.trace| && r.trace[i].Death? ==>
        |s.trace| < i && r.trace[i - 1] == HealthChange(0)
    decreases |calls|
  {
    RunKeepsConfiguration(s, calls);
    if calls != [] {
      var t := Apply(s, calls[0]);
      assert !calls[0].DeathCall?;
      assert NoDirectDeath(calls[1..]) by {
        forall i | 0 <= i < |calls[1..]| ensures !calls[1..][i].DeathCall? {
          assert calls[1..][i] == calls[i + 1];
        }
      }
      DeathFollowsZeroNotification(t, calls[1..]);
      RunKeepsConfiguration(t, calls[1..]);
      var r := Run(s, calls);
      forall i | |s.trace| <= i < |r.trace| && r.trace[i].Death?
        ensures |s.trace| < i && r.trace[i - 1] == HealthChange(0)
      {
        if i < |t.trace| {
          assert r.trace[i] == t.trace[i];
          assert r.trace[i - 1] == t.trace[i - 1];
        }
      }
    }
  }

  /**
    Damage with a non-negative amount to an entity already at zero health
    announces 0 and runs the death handler again, every single time.
   */
  lemma {:induction false} RepeatedDamageAtZero(s: Snapshot, attackOwner: Entity?, damageAmount: int32, n: nat)
    requires s.health == 0 && damageAmount >= 0
    ensures Run(s, Repeat([DamageCall(attackOwner, damageAmount)], n))
         == s.(active := s.active && n == 0,
               trace := s.trace + Repeat([HealthChange(0), Death(attackOwner)], n))
    decreases n
  {
    if n != 0 {
      var calls := Repeat([DamageCall(attackOwner, damageAmount)], n);
      var t := Damaged(s, attackOwner, damageAmount);
      assert calls[0] == DamageCall(attackOwner, damageAmount);
      assert calls[1..] == Repeat([DamageCall(attackOwner, damageAmount)], n - 1);
      RepeatedDamageAtZero(t, attackOwner, damageAmount, n - 1);
      assert t.trace == s.trace + [HealthChange(0), Death(attackOwner)];
    }
  }

  // ---------------------------------------------------------------- single calls

  /** Non-negative damage never raises health that is not already negative. */
  lemma DamageNeverIncreases(s: Snapshot, attackOwner: Entity?, damageAmount: int32)
    requires damageAmount >= 0 && s.health >= 0
    ensures Damaged(s, attackOwner, damageAmount).health <= s.health
  {
  }

  /** The clamp at zero raises negative health (left there by a negative heal), even with no damage. */
  lemma DamageRaisesNegativeHealth(s: Snapshot, attackOwner: Entity?, damageAmount: int32)
    requires s.health < 0 && damageAmount >= 0
    requires InRange(s.health as int - damageAmount as int)
    ensures Damaged(s, attackOwner, damageAmount).health == 0 > s.health
    ensures !Damaged(s, attackOwner, damageAmount).active
  {
  }

  /** Negative damage is not rejected and has no upper clamp: health can exceed the ceiling. */
  lemma NegativeDamageHeals(s: Snapshot, attackOwner: Entity?, damageAmount: int32)
    requires damageAmount < 0 && s.health >= 0
    requires InRange(s.health as int - damageAmount as int)
    ensures Damaged(s, attackOwner, damageAmount).health as int == s.health as int - damageAmount as int
    ensures s.health == s.maxHealth ==> Damaged(s, attackOwner, damageAmount).health > s.maxHealth
  {
  }

  /** Subtraction wraps around: one point of damage at the lowest health gives the highest health. */
  lemma DamageWrapsAround(s: Snapshot, attackOwner: Entity?)
    requires s.health as int == MIN
    ensures Damaged(s, attackOwner, 1).health as int == MAX
    ensures Damaged(s, attackOwner, 1).active == s.active
  {
  }

  /** Non-negative healing never lowers health that is within the ceiling. */
  lemma HealNeverDecreases(s: Snapshot, healthIncreaseAmount: int32)
    requires healthIncreaseAmount >= 0 && s.health <= s.maxHealth
    requires InRange(s.health as int + healthIncreaseAmount as int)
    ensures Healed(s, healthIncreaseAmount).health >= s.health
  {
  }

  /** Health above the ceiling is cut down to it by any heal that does not overflow, even of 0 points. */
  lemma HealCutsExcessHealth(s: Snapshot, healthIncreaseAmount: int32)
    requires s.health > s.maxHealth && healthIncreaseAmount >= 0
    requires InRange(s.health as int + healthIncreaseAmount as int)
    ensures Healed(s, healthIncreaseAmount).health == s.maxHealth < s.health
  {
  }

  /** Negative healing is not rejected and has no lower clamp: it can drive health below zero. */
  lemma NegativeHealHarms(s: Snapshot, healthIncreaseAmount: int32)
    requires healthIncreaseAmount < 0 && s.health <= s.maxHealth && s.health >= 0
    ensures Healed(s, healthIncreaseAmount).health as int == s.health as int + healthIncreaseAmount as int
    ensures Healed(s, healthIncreaseAmount).active == s.active
  {
  }

  /** Addition wraps around: a large enough heal leaves health negative. */
  lemma HealWrapsAround(s: Snapshot)
    requires 0 < s.health <= s.maxHealth
    ensures Healed(s, MAX as int32).health as int == s.health as int + MAX - MODULUS
    ensures Healed(s, MAX as int32).health < 0
  {
  }

  // ---------------------------------------------------------------- the class, end to end

  /** A client of the class: what a sequence of calls on a fresh entity is known to do. */
  method KillScenario(attacker: Entity?)
  {
    var e := new Entity();
    ghost var calls := [HealCall(150), DamageCall(attacker, 30), DamageCall(attacker, 80)];
    e.TakeHealthPoints(150);
    assert e.health == 100;
    ghost var s1 := e.State();
    e.TakeDamage(attacker, 30);
    assert e.health == 70 && e.active;
    ghost var s2 := e.State();
    e.TakeDamage(attacker, 80);
    assert e.health == 0 && !e.active;
    assert e.trace == [HealthChange(100), HealthChange(70), HealthChange(0), Death(attacker)];
    assert Run(s2, calls[2..]) == e.State() by {
      assert calls[2..][1..] == [];
    }
    assert Run(s1, calls[1..]) == e.State() by {
      assert calls[1..][1..] == calls[2..];
    }
    assert e.State() == Run(Spawned(), calls);
    e.TakeDamage(attacker, 5);
    assert e.trace[4..] == [HealthChange(0), Death(attacker)];
  }
}
