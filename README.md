# Entity health bookkeeping, in Dafny

This project models the health bookkeeping that every damageable thing in the game
inherits from the `Entity` base class (`Assets/Scripts/Entity.cs`). An entity has:

- a current `Health`;
- a `MaxHealth` ceiling that starts at 100;
- an `IsLootable` flag that starts false;
- the active flag of the game object it is attached to.

`TakeDamage` subtracts the damage and clamps the result at zero, from below only. It then raises
the `OnHealthChange` event with the new health. If the health is zero, it runs the death handler
`OnDeath`. The base `OnDeath` deactivates the game object. `TakeHealthPoints` adds the amount,
clamps the result at `MaxHealth`, from above only, and raises `OnHealthChange`.

Files:

- `int32.dfy`, module `Int32`: C#'s `int` as the newtype `int32`. `Sub` and `Add` model unchecked
  32-bit subtraction and addition, which wrap around modulo 2^32. This is the default for C#
  arithmetic, so the health updates carry the wrap-around.
- `entity.dfy`, module `Entities`:
  - `Snapshot` holds the entity's whole state.
  - `Event` is one notification: `HealthChange(health)` for the event, `Death(attackOwner)` for the
    death handler.
  - `Damaged`, `Healed` and `Died` specify the three operations on a `Snapshot`.
  - The class `Entity` has the real fields and a ghost `trace` of the notifications raised so far.
    Each of its methods is proved to move `State()` exactly as its specification function says.
- `entity_runs.dfy`, module `EntityRuns`:
  - `Run` is the state after a whole sequence of calls.
  - The inductive lemmas about it cover the bounds on health, the order of notifications, the
    active flag, and repeated deaths.
  - Single-call lemmas cover the edge cases the clamping rules leave open: negative amounts, health
    outside `[0, MaxHealth]`, and wrap-around.
  - `KillScenario` is a client of the class. It shows that a concrete sequence of calls ends in the
    state `Run` predicts.

## Model

| member | source | states |
|---|---|---|
| `Int32.Wrap` | Assets/Scripts/Entity.cs:24 | the C# `int` with the same low 32 bits: equal to the input when it fits, congruent to it modulo 2^32 always |
| `Int32.Sub` | Assets/Scripts/Entity.cs:24 | unchecked `Health - DamageAmount`: the exact difference when it fits in 32 bits, otherwise the difference plus or minus exactly 2^32 |
| `Int32.Add` | Assets/Scripts/Entity.cs:45 | unchecked `Health + healthIncreaseAmount`: the exact sum when it fits in 32 bits, otherwise the sum plus or minus exactly 2^32 |
| `Entities.Spawned` | Assets/Scripts/Entity.cs:6-8 | a new entity has health 0 (no initializer), ceiling 100, is not lootable, is active, and has raised nothing |
| `Entities.Entity.constructor` | Assets/Scripts/Entity.cs:6-8 | the object's initial state is `Spawned()` |
| `Entities.Died` | Assets/Scripts/Entity.cs:37-41 | the base death handler clears the active flag, records one `Death` carrying the attacker, and leaves health, ceiling and lootable flag unchanged |
| `Entities.Damaged` | Assets/Scripts/Entity.cs:22-35 | health afterwards is never negative, and equals max(old - damage, 0) when the subtraction does not overflow; exactly one `HealthChange` with the clamped health is appended, followed by `Death` if and only if that health is 0; active afterwards iff it was active and health is not 0; ceiling and lootable flag unchanged |
| `Entities.Healed` | Assets/Scripts/Entity.cs:43-51 | health afterwards never exceeds the ceiling, and equals min(old + amount, ceiling) when the addition does not overflow; exactly one `HealthChange` with that value is appended and no `Death`; active flag, ceiling and lootable flag unchanged |
| `Entities.Entity.TakeDamage` | Assets/Scripts/Entity.cs:22-35 | subtract, clamp at 0, notify, die on 0, in that order, moves the object's state exactly as `Damaged` says |
| `Entities.Entity.OnDeath` | Assets/Scripts/Entity.cs:37-41 | deactivating the object moves its state exactly as `Died` says |
| `Entities.Entity.TakeHealthPoints` | Assets/Scripts/Entity.cs:43-51 | add, clamp at the ceiling, notify, in that order, moves the object's state exactly as `Healed` says |
| `EntityRuns.RunKeepsConfiguration` | Assets/Scripts/Entity.cs:7-8 | no sequence of calls changes the ceiling or the lootable flag, and the notification trace only grows by appending |
| `EntityRuns.NeverLootable` | Assets/Scripts/Entity.cs:8 | a new entity is never lootable and keeps ceiling 100 after any sequence of calls |
| `EntityRuns.RunPreservesHealthy` | Assets/Scripts/Entity.cs:22-51 | 0 <= health <= ceiling is preserved by any sequence of calls with non-negative amounts whose heals cannot overflow past the ceiling |
| `EntityRuns.RunNotifiesWithinBounds` | Assets/Scripts/Entity.cs:22-51 | under the same conditions, every health value announced to listeners lies in [0, ceiling] |
| `EntityRuns.RunActiveIffNoDeath` | Assets/Scripts/Entity.cs:31-41 | after any sequence of calls the object is active if and only if it was active before and no `Death` was recorded during the calls |
| `EntityRuns.DeathFollowsZeroNotification` | Assets/Scripts/Entity.cs:28-31 | when the death handler is reached only through damage, every recorded `Death` comes immediately after a `HealthChange(0)` from the same call |
| `EntityRuns.RepeatedDamageAtZero` | Assets/Scripts/Entity.cs:24-31 | n non-negative hits on an entity at health 0 record `HealthChange(0), Death` n times, leave health 0, and leave the object inactive when n > 0 |
| `EntityRuns.DamageNeverIncreases` | Assets/Scripts/Entity.cs:24-26 | non-negative damage never raises non-negative health |
| `EntityRuns.DamageRaisesNegativeHealth` | Assets/Scripts/Entity.cs:24-26 | on negative health, for example after a negative heal, non-negative damage raises health to 0 and kills the entity |
| `EntityRuns.NegativeDamageHeals` | Assets/Scripts/Entity.cs:22-26 | negative damage is not rejected and adds health with no ceiling, so health can exceed `MaxHealth` |
| `EntityRuns.DamageWrapsAround` | Assets/Scripts/Entity.cs:24 | one point of damage at the lowest `int` wraps health to the highest `int`, and the entity does not die |
| `EntityRuns.HealNeverDecreases` | Assets/Scripts/Entity.cs:45-48 | a non-negative heal that does not overflow never lowers health that is within the ceiling |
| `EntityRuns.HealCutsExcessHealth` | Assets/Scripts/Entity.cs:45-48 | health above the ceiling is cut to the ceiling by any non-overflowing non-negative heal, even a heal of 0 |
| `EntityRuns.NegativeHealHarms` | Assets/Scripts/Entity.cs:43-48 | a negative heal is not rejected and has no lower clamp: health drops by the amount, possibly below 0, and the entity does not die |
| `EntityRuns.HealWrapsAround` | Assets/Scripts/Entity.cs:45 | healing positive health by the largest `int` wraps it to a negative value |

## Left out

- `OnDeath` logging (`Debug.Log` of the object's name): a logging side effect with no bearing on the state.
- `SetActive(false)` is modelled only as clearing the entity's `active` flag. What the engine does when it deactivates an object is outside this model.
- `OnHealthChange` subscribers: the trace records each time the event is raised, with its argument. It does not record whether anyone is subscribed (`?.Invoke` on no subscribers does nothing observable). What listeners do is not modelled. In particular, a listener that heals the entity during the notification would change the `Health == 0` test that follows it. The model assumes listeners leave the entity alone.
- Subclass overrides of the virtual `TakeDamage` and `OnDeath`, and subclass writes to the protected `Health` and `MaxHealth` setters. No subclass is part of this model.
- The empty `Awake` and `Start` lifecycle hooks: they do nothing.
- The active flag of a newly created entity is taken to be true, meaning the object is spawned active. Entity.cs does not set it.
- `Assets/Scripts/PlayerController.cs`: input polling, an engine movement call and floating-point vector math. It has no logic to model.
- The AI behaviour engine (state machine, perception, movement, attack, controller) is not part of this model.
