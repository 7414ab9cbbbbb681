# Marble game engine in Dafny

This project models the game engine of the marble-catching Android game in
`hw4`. The player tilts the device, and the gravity reading accelerates a
marble (the Pokéball) around a playfield. The playfield holds circular
obstacles and water zones. A Pokémon target wanders across it. Hitting the
target three times catches it, and caught identities are kept in a set across
rounds.

All of this lives in `MarbleViewModel`. The model keeps that shape:

- `Geometry` has the `Offset`/`Size` value types, plus the square-root and
  rotation arithmetic the updates use.
- `Physics` has the constants, the obstacle field, and one update step of each
  body as pure functions. The step's loops are methods: the obstacle loop is
  proved equal to an in-order fold over the obstacle list, and the water loop
  is proved to scale the velocity once exactly when some zone contains the
  marble.
- `Game` has the hit and catch state machine, cooldown accounting and target
  repositioning. It also has the class `MarbleViewModel`, which holds the same
  mutable fields as the original and one method per operation:
  - the hit check;
  - one tick of the target loop;
  - one tick of the marble loop;
  - reset;
  - repositioning;
  - identity selection.

The modelling choices:

- **Floats.** Single-precision values are modelled as reals.
- **Platform math.** `sqrt`, and cosine and sine together, are function
  parameters. `sqrt` is constrained to be the non-negative square root.
- **Randomness.** Every random draw is an explicit argument:
  - `pick` selects the identity;
  - `r` is the heading-jitter draw;
  - `RepositionDraw` holds the four floats and two booleans of one
    repositioning.
- **Time.** The elapsed time `dt` of a loop iteration is a parameter.
- **Identities.** The four image resource ids are the ints 1–4.

Facts of the code that the model keeps:

- **Hits after a catch.** The hit check at `MarbleViewModel.kt:322` never
  reads `isPokemonCaught`. A caught target is not moved (`:174`), but it can
  still be hit, so `hitCount` grows past 3 (`Game.HitAfterCatch`).
- **Cooldown.** The decrement at `:175` subtracts a whole `dt` from any
  positive cooldown, so the cooldown can end below zero, by less than one tick
  (`Game.Decay`).
- **Obstacles.** The obstacle pass resolves obstacles once each, in list
  order. A later push-out can move the body back into an earlier obstacle, so
  only the obstacle resolved last is guaranteed clear
  (`Physics.LastObstacleCleared`).
- **Target position.** For the target, the pushed-out position is discarded.
  The position is recomputed from the old position and the final velocity
  (`:308`). `Physics.PokemonStep` states exactly that.
- **Repositioning.** Repositioning puts the target in the central band of the
  playfield, with no regard for where the marble is.
- **Order inside a hit.** During a hit, repositioning runs before the caught
  flag and the caught set are updated.

## Model

All source paths are in `hw4/app/src/main/java/com/example/hw4/`; the table
cites them in full.

| member | source | states |
|---|---|---|
| Geometry.DistanceBelow | hw4/app/src/main/java/com/example/hw4/MarbleViewModel.kt:320-322 | Take a non-negative root `d` of a squared distance `s`. Then `d < bound` holds exactly when the bound is positive and `s < bound²`. This is how each "closer than" test of the game is stated without a square root. |
| Geometry.Rotate | hw4/app/src/main/java/com/example/hw4/MarbleViewModel.kt:297-300 | Rotating a velocity by (c, s) multiplies its squared length by c² + s², so a rotation by a point (cos θ, sin θ) of the unit circle keeps the speed. |
| Geometry.Renormalize | hw4/app/src/main/java/com/example/hw4/MarbleViewModel.kt:302-307 | A nonzero vector is rescaled by `speed / length`, so its direction is kept. |
| Geometry.RenormalizeSpeed | hw4/app/src/main/java/com/example/hw4/MarbleViewModel.kt:302-307 | The renormalized velocity has length exactly `speed`, including in the zero-vector fallback `(speed, 0)`. |
| Physics.ContactNormalUnit | hw4/app/src/main/java/com/example/hw4/MarbleViewModel.kt:228 | Given the true distance `d` between the body and the obstacle centre, the contact normal is a unit vector. This includes the `(1, 0)` fallback when the centres coincide. Away from the centre, `d` times the normal is the offset from the centre to the body, so the normal points outward. |
| Physics.PushOutTouches | hw4/app/src/main/java/com/example/hw4/MarbleViewModel.kt:226-229 | Pushing a penetrating body out along the contact normal by the penetration depth leaves it exactly at the contact distance. This holds also when the centres coincide and the normal is `(1, 0)`. |
| Physics.ResolveObstacleSound | hw4/app/src/main/java/com/example/hw4/MarbleViewModel.kt:222-233 | The contract of `ResolveObstacle`, the body of either obstacle loop (also `:276-285`). Resolving one obstacle changes the body exactly when it penetrates the obstacle. The body then sits at the contact distance and its speed is scaled by the restitution 0.75. Otherwise position and velocity are unchanged. |
| Physics.ResolveAllNeverSpeedsUp | hw4/app/src/main/java/com/example/hw4/MarbleViewModel.kt:275-286 | A full obstacle pass never increases the body's speed. |
| Physics.LastObstacleCleared | hw4/app/src/main/java/com/example/hw4/MarbleViewModel.kt:222-233 | After a pass, the body does not penetrate the last obstacle of the list. |
| Physics.CollideWithObstacles | hw4/app/src/main/java/com/example/hw4/MarbleViewModel.kt:275-286 | The obstacle loop of either body computes the in-order fold of single-obstacle resolutions over the whole list. |
| Physics.ApplyWaterDrag | hw4/app/src/main/java/com/example/hw4/MarbleViewModel.kt:210-219 | If some water zone contains the marble, the velocity is scaled by 0.75 exactly once, even where zones overlap. Otherwise it is unchanged. |
| Physics.InWater | hw4/app/src/main/java/com/example/hw4/MarbleViewModel.kt:213-215 | A position in a water zone lies within the square of side twice the zone's radius around its centre. |
| Physics.WaterPool | hw4/app/src/main/java/com/example/hw4/MarbleViewModel.kt:133-137 | `InAnyWater` over the three zones of the layout: every wet position has −50 < x < 400 and 1400 < y < 1750, and every position within 175 of (175, 1575) is wet. |
| Physics.ClampAxis | hw4/app/src/main/java/com/example/hw4/MarbleViewModel.kt:194-208 | The coordinate moves exactly when the ball pokes out of the playfield on that axis, and then sits against the crossed wall. If both walls are crossed, the low wall wins. When the coordinate moves, the velocity component is reversed and scaled by 0.75; otherwise it is unchanged. On a playfield at least one ball wide, the result lies within the walls. |
| Physics.ClampNoFaster | hw4/app/src/main/java/com/example/hw4/MarbleViewModel.kt:194-208 | A wall bounce never speeds the marble up along that axis. |
| Physics.BounceAxis | hw4/app/src/main/java/com/example/hw4/MarbleViewModel.kt:259-270 | A target crossing a wall keeps its speed along that axis and is turned back inward: non-negative at the low wall, non-positive at the high wall. Inside the playfield the velocity is unchanged. |
| Physics.SignFactor | hw4/app/src/main/java/com/example/hw4/MarbleViewModel.kt:241-244 | The rolling direction is +1 or −1. |
| Physics.RollAngleDelta | hw4/app/src/main/java/com/example/hw4/MarbleViewModel.kt:235-247 | The size of the angle change equals displacement / 25 · 180/π · 0.3. It is positive exactly when the marble moved and the dominant velocity component is positive, and negative exactly when it moved and that component is not positive. |
| Physics.AccelerationFromReading | hw4/app/src/main/java/com/example/hw4/MarbleViewModel.kt:188-189 | The acceleration has 666 times the size of the gravity reading. Its horizontal component opposes the reading's x, and its vertical component follows the reading's y. |
| Physics.DampedVelocity | hw4/app/src/main/java/com/example/hw4/MarbleViewModel.kt:190-191 | With no gravity, or over a zero-length tick, integration only damps: the squared speed is multiplied by 0.99². |
| Physics.MarbleStep | hw4/app/src/main/java/com/example/hw4/MarbleViewModel.kt:182-250 | Before the playfield size is known, a marble update changes nothing. |
| Physics.MarbleStepDissipates | hw4/app/src/main/java/com/example/hw4/MarbleViewModel.kt:190-233 | After gravity and damping, the wall bounces, water drag and obstacle bounces never make the marble faster. |
| Physics.JitterDegrees | hw4/app/src/main/java/com/example/hw4/MarbleViewModel.kt:290-293 | The heading jitter lies in [−5°, 5°) for an identity caught before and in [−10°, 10°) otherwise. |
| Physics.DesiredSpeed | hw4/app/src/main/java/com/example/hw4/MarbleViewModel.kt:289 | The cruising speed lies in [350, 400] and is below 400 exactly for an identity caught before. |
| Physics.JitteredVelocity | hw4/app/src/main/java/com/example/hw4/MarbleViewModel.kt:288-307 | The target's new speed is exactly 350 for an identity caught before and 400 otherwise, whatever the rotation. A zero velocity becomes (speed, 0). When cos/sin give a point of the unit circle, a nonzero velocity becomes the rotated velocity rescaled to that speed, so the `(speed, 0)` fallback happens only for a zero velocity. |
| Physics.RotatedLength | hw4/app/src/main/java/com/example/hw4/MarbleViewModel.kt:303-304 | The length of the rotated velocity is zero for a zero velocity. Under a unit-circle rotation it is nonzero for any nonzero velocity, which selects the branch taken at `:304`. |
| Physics.PokemonStep | hw4/app/src/main/java/com/example/hw4/MarbleViewModel.kt:252-311 | Before the playfield size is known, nothing changes. Otherwise the target moves at the desired speed, and its new position is the old position plus the new velocity times `dt` (the pushed-out position is dropped). Its size never changes. |
| Game.CaughtSetBound | hw4/app/src/main/java/com/example/hw4/MarbleViewModel.kt:101-112 | A set of caught identities holds at most four of them, and holds four exactly when every identity is caught. |
| Game.HitReach | hw4/app/src/main/java/com/example/hw4/MarbleViewModel.kt:315-317 | The hit distance is at least the ball radius 25. For a target of positive size it is larger than 25 + size / 2, the distance at which the drawn circles touch. |
| Game.Overlaps | hw4/app/src/main/java/com/example/hw4/MarbleViewModel.kt:318-322 | An overlap needs both coordinate offsets below the hit distance, and coincident centres always overlap for a target of non-negative size. |
| Game.BallTouchesPokemon | hw4/app/src/main/java/com/example/hw4/MarbleViewModel.kt:315-322 | The square-root distance test holds exactly when the marble's centre is closer to the target's than 25 + size / 1.5. |
| Game.Decay | hw4/app/src/main/java/com/example/hw4/MarbleViewModel.kt:175 | One tick never raises the cooldown (for dt ≥ 0) and leaves an expired cooldown unchanged. A positive cooldown ends above −dt, so it overshoots zero by less than one tick. |
| Game.DecayAll | hw4/app/src/main/java/com/example/hw4/MarbleViewModel.kt:169-175 | Over non-negative ticks the cooldown never grows, and an expired cooldown stays exactly as it is. |
| Game.DecayAccountsForTime | hw4/app/src/main/java/com/example/hw4/MarbleViewModel.kt:175 | Over any run of non-negative ticks, the cooldown decays by at most the elapsed time. |
| Game.CooldownSpacing | hw4/app/src/main/java/com/example/hw4/MarbleViewModel.kt:322-324 | Once a hit sets the cooldown to 2.5 s, it has run out only after ticks totalling at least 2.5 s. |
| Game.Repositioned | hw4/app/src/main/java/com/example/hw4/MarbleViewModel.kt:335-349 | Before the playfield size is known, the target is unchanged. Otherwise each coordinate lands in the central 60% of its axis, and each velocity component has magnitude in [50, 150) with the drawn sign. The size is kept. |
| Game.MarbleViewModel.constructor | hw4/app/src/main/java/com/example/hw4/MarbleViewModel.kt:72-146 | The initial state: marble at (500, 1000) at rest, target at (750, 750) at rest with size 75, no playfield size, zero gravity, no hits, not caught, cooldown 0, empty caught set, and the drawn identity. |
| Game.MarbleViewModel.SetGravity | hw4/app/src/main/java/com/example/hw4/MarbleViewModel.kt:149-153 | A sensor reading becomes the current gravity. |
| Game.MarbleViewModel.SetContainerSize | hw4/app/src/main/java/com/example/hw4/MarbleViewModel.kt:81-82 | The UI's playfield size is stored, and the game invariant still holds. |
| Game.MarbleViewModel.SelectRandomPokemon | hw4/app/src/main/java/com/example/hw4/MarbleViewModel.kt:351-353 | The selected identity is the drawn element of the four-identity list. |
| Game.MarbleViewModel.RepositionPokemon | hw4/app/src/main/java/com/example/hw4/MarbleViewModel.kt:335-349 | The target becomes `Repositioned` of the old target, with the properties above. |
| Game.MarbleViewModel.UpdateMarble | hw4/app/src/main/java/com/example/hw4/MarbleViewModel.kt:182-250 | The marble becomes `MarbleStep` of the old marble, which does nothing before the playfield size is known and never adds speed after integration. |
| Game.MarbleViewModel.UpdatePokemon | hw4/app/src/main/java/com/example/hw4/MarbleViewModel.kt:252-311 | The target becomes `PokemonStep`, with the slow speed used exactly when the selected identity was caught before. |
| Game.MarbleViewModel.CheckCollisionBallPokemon | hw4/app/src/main/java/com/example/hw4/MarbleViewModel.kt:314-332 | A hit registers exactly when the bodies overlap and the cooldown is ≤ 0; the caught flag is not consulted. A hit does the following: the count goes up by one, the cooldown becomes 2.5, the haptic signal is raised, the target is repositioned, and from the third hit on the target is caught and its identity joins the set. With no hit the state is unchanged. The game invariant is kept: caught exactly when at least 3 hits, caught implies the identity is in the set, and the set ⊆ the four identities. Two hits are at least 2.5 s of ticks apart. |
| Game.MarbleViewModel.Tick | hw4/app/src/main/java/com/example/hw4/MarbleViewModel.kt:167-178 | One target-loop iteration. An uncaught target moves, the cooldown decays while positive, then the hit check runs against the moved target and the decayed cooldown. The marble, the identity, the playfield size and gravity are unchanged. The invariant is kept. A hit needs at least 2.5 s of ticks since the previous hit. The caught set never exceeds four. |
| Game.MarbleViewModel.ResetGame | hw4/app/src/main/java/com/example/hw4/MarbleViewModel.kt:355-366 | Hit count 0, not caught, cooldown 0, marble at (750, 750) at rest, a newly drawn identity and a repositioned target. The caught set is emptied exactly when it holds all four identities and is otherwise kept. The playfield size, gravity and haptic signal are unchanged. |
| Game.ThirdHitCatches | hw4/app/src/main/java/com/example/hw4/MarbleViewModel.kt:322-330 | A third hit on an overlapping target with an expired cooldown catches it and adds its identity to the set. |
| Game.HitAfterCatch | hw4/app/src/main/java/com/example/hw4/MarbleViewModel.kt:322-330 | A caught target hit again after the cooldown counts one more hit (beyond 3). It stays caught, and the caught set is unchanged. |

## Left out

- `GameScreen.kt` is not part of this model: drawing, layout, haptics, particles, and the UI resetting the haptic signal `hitRegistered`.
- The gravity sensor, its listener and the callback flow (`MarbleViewModel.kt:29-43`, `:140`) are left out. `SetGravity` stands for one collected reading.
- The three coroutines and their `delay(16)` pacing are left out. The marble loop and the target loop run concurrently in the source. Here each iteration is a method (`UpdateMarble`, `Tick`) that a caller may interleave in any order. Interleavings inside one iteration are not modelled.
- Wall-clock time (`System.currentTimeMillis()`, `lastUpdateTime`) is left out. The elapsed time is the parameter `dt`, and `ResetGame` does not restart the marble loop's clock.
- Single-precision rounding is not modelled: all arithmetic is on reals. `PI.toFloat()` is the decimal 3.1415927. Where the source is a square root, sine or cosine, the model uses an argument. The square root is constrained to be the true square root. Cosine and sine are not constrained. The one claim that needs (cos θ, sin θ) to lie on the unit circle, in `JitteredVelocity`, states that as its hypothesis. No claim depends on the actual angle.
- The getter `collisionCooldownTime` (`:99`) only reads a field and is not modelled separately.
- Game.MarbleViewModel.CheckCollisionBallPokemon: `hitCount` is an unbounded integer, while the source's Kotlin `Int` wraps at 2³¹. Hits are not capped after a catch, but wrap-around would need more than 2³¹ hits, each at least 2.5 s apart.
- Physics.ResolveObstacle, Physics.ContactNormal and Physics.Acceleration: their properties are stated by the lemmas `ResolveObstacleSound`, `ContactNormalUnit` and `AccelerationFromReading`, not by postconditions of the functions themselves.
- Game.MarbleViewModel.Tick: requires `dt >= 0`. In the source, `dt` is a difference of wall-clock readings and could be negative if the clock stepped back. The cooldown-spacing guarantee is only stated for non-negative ticks.
- Game.Repositioned: the central-band property is stated only for non-negative playfield dimensions. The source does not rule out negative ones, and for them the band is not defined.
- Physics.MarbleStep: its contract states only the no-op before the playfield size is known. The effects of the step are stated by `ClampAxis`, `ApplyWaterDrag`, `CollideWithObstacles`, `RollAngleDelta` and `MarbleStepDissipates`. No single postcondition gives a closed form of the new position.
- Physics.LastObstacleCleared: states non-penetration only for the last obstacle, because the source gives no stronger guarantee for the others.
