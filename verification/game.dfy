/** The game-state engine of the marble-catching game: the hit/catch state
    machine, the caught-identity bookkeeping, target repositioning, and the
    view model that owns all mutable state and runs one tick of each update
    loop. */
module Game {
  import opened Geometry
  import opened Physics

  // ---------------------------------------------------------------------------
  // Target identities

  /** The four target identities (image resource ids): four distinct ints. */
  const Bulbasaur: int := 1
  const Charmander: int := 2
  const Pikachu: int := 3
  const Squirtle: int := 4

  const PossiblePokemonResIds: seq<int> := [Bulbasaur, Charmander, Pikachu, Squirtle]

  const AllPokemon: set<int> := {Bulbasaur, Charmander, Pikachu, Squirtle}

  /** The caught-identity set never holds more than four identities, and holds
      four exactly when every identity has been caught. */
  lemma CaughtSetBound(s: set<int>)
    requires s <= AllPokemon
    ensures |s| <= 4
    ensures |s| == 4 <==> s == AllPokemon
  {
    assert |AllPokemon| == 4 by {
      assert AllPokemon == {Bulbasaur} + {Charmander} + {Pikachu} + {Squirtle};
    }
    var rest := AllPokemon - s;
    assert AllPokemon == s + rest;
    assert s * rest == {};
    assert |AllPokemon| == |s| + |rest|;
    if s != AllPokemon {
      var x :| x in AllPokemon && x !in s;
      assert x in rest;
    }
  }

  // ---------------------------------------------------------------------------
  // Hit detection

  /** Hits needed to catch the target. */
  const CatchHits: int := 3

  /** Seconds during which no further hit registers after a hit. */
  const CooldownTime: real := 2.5

  /** The distance below which the marble hits the target: the ball radius plus
      `size / 1.5`, a hit radius larger than the drawn radius `size / 2`. */
  function HitReach(ps: PokemonState): (reach: real)
    ensures 0.0 <= ps.size ==> BallRadius <= reach
    ensures 0.0 < ps.size ==> BallRadius + ps.size / 2.0 < reach
  {
    BallRadius + ps.size / 1.5
  }

  /** The marble's centre is closer to the target's centre than `HitReach`: a
      hit needs both coordinates within the reach, and centres that coincide
      always hit a target of non-negative size. */
  predicate Overlaps(m: MarbleState, ps: PokemonState)
    ensures Overlaps(m, ps) ==>
      Abs(m.position.x - ps.position.x) < HitReach(ps) && Abs(m.position.y - ps.position.y) < HitReach(ps)
    ensures m.position == ps.position && 0.0 <= ps.size ==> Overlaps(m, ps)
  {
    AxisBelow(Sub(m.position, ps.position), HitReach(ps));
    Penetrates(m.position, ps.position, HitReach(ps))
  }

  /** The distance test of the hit check, computed with a square root as the
      game does: it holds exactly when the bodies overlap. */
  method BallTouchesPokemon(m: MarbleState, ps: PokemonState, sqrt: real -> real) returns (touching: bool)
    requires IsSqrt(sqrt)
    ensures touching <==> Overlaps(m, ps)
  {
    var ballRadius := BallRadius;
    var pokemonRadius := ps.size / 1.5;
    var dx := m.position.x - ps.position.x;
    var dy := m.position.y - ps.position.y;
    var distance := sqrt(dx * dx + dy * dy);
    DistanceBelow(distance, Norm2(Sub(m.position, ps.position)), ballRadius + pokemonRadius);
    touching := distance < ballRadius + pokemonRadius;
  }

  // ---------------------------------------------------------------------------
  // Cooldown accounting

  /** One tick of the cooldown: it decays by `dt` only while positive, so its
      last decay may take it below zero. */
  function Decay(cooldown: real, dt: real): (c: real)
    ensures 0.0 <= dt ==> c <= cooldown
    ensures cooldown <= 0.0 ==> c == cooldown
    ensures 0.0 < cooldown ==> -dt < c
  {
    if cooldown > 0.0 then cooldown - dt else cooldown
  }

  /** The cooldown after ticks of lengths `dts`, oldest first: it never grows
      over non-negative ticks, and an expired cooldown stays as it is. */
  function DecayAll(cooldown: real, dts: seq<real>): (c: real)
    ensures AllNonNegative(dts) ==> c <= cooldown
    ensures cooldown <= 0.0 ==> c == cooldown
    decreases |dts|
  {
    if dts == [] then cooldown
    else
      var prefix := dts[..|dts| - 1];
      assert AllNonNegative(dts) ==> AllNonNegative(prefix) by {
        if AllNonNegative(dts) {
          forall i | 0 <= i < |prefix| ensures 0.0 <= prefix[i] { assert prefix[i] == dts[i]; }
        }
      }
      Decay(DecayAll(cooldown, prefix), dts[|dts| - 1])
  }

  function Sum(dts: seq<real>): real
    decreases |dts|
  {
    if dts == [] then 0.0 else Sum(dts[..|dts| - 1]) + dts[|dts| - 1]
  }

  predicate AllNonNegative(dts: seq<real>) {
    forall i :: 0 <= i < |dts| ==> 0.0 <= dts[i]
  }

  /** Decay never removes more than the time that passed: the remaining
      cooldown plus the elapsed time is at least the starting cooldown. */
  lemma {:induction false} DecayAccountsForTime(cooldown: real, dts: seq<real>)
    requires AllNonNegative(dts)
    ensures cooldown <= DecayAll(cooldown, dts) + Sum(dts)
    decreases |dts|
  {
    if dts != [] {
      var prefix := dts[..|dts| - 1];
      assert AllNonNegative(prefix) by {
        forall i | 0 <= i < |prefix| ensures 0.0 <= prefix[i] { assert prefix[i] == dts[i]; }
      }
      DecayAccountsForTime(cooldown, prefix);
      assert 0.0 <= dts[|dts| - 1];
    }
  }

  /** Cooldown spacing: once a hit has set the cooldown, it has run out only
      after ticks whose lengths add up to at least `CooldownTime`. */
  lemma CooldownSpacing(dts: seq<real>)
    requires AllNonNegative(dts) && DecayAll(CooldownTime, dts) <= 0.0
    ensures CooldownTime <= Sum(dts)
  {
    DecayAccountsForTime(CooldownTime, dts);
  }

  // ---------------------------------------------------------------------------
  // Repositioning

  /** The random draws of one repositioning, in the order they are drawn:
      `Random.nextFloat()` values (each in `[0, 1)`) for x, y and the two
      velocity magnitudes, and `Random.nextBoolean()` values for the signs. */
  datatype RepositionDraw = RepositionDraw(fx: real, fy: real, fvx: real, positiveX: bool, fvy: real, positiveY: bool)
  {
    predicate Valid() {
      0.0 <= fx < 1.0 && 0.0 <= fy < 1.0 && 0.0 <= fvx < 1.0 && 0.0 <= fvy < 1.0
    }
  }

  /** `p` lies in the central 60% of `[0, dim]`: in `[0.2 dim, 0.8 dim)`, or at
      0 for a zero dimension. */
  predicate InCentralBand(p: real, dim: real) {
    0.2 * dim <= p <= 0.8 * dim && (0.0 < dim ==> p < 0.8 * dim)
  }

  /** A repositioned velocity component: magnitude in `[50, 150)`, sign drawn. */
  predicate RepositionSpeed(v: real, positive: bool) {
    50.0 <= Abs(v) < 150.0 && (0.0 < v <==> positive)
  }

  lemma FractionOf(span: real, f: real)
    requires 0.0 <= f < 1.0
    ensures 0.0 <= span ==> 0.0 <= span * f <= span
    ensures 0.0 < span ==> span * f < span
  {
    var sf := span * f;
    if 0.0 < span {
      assert sf < span * 1.0;
    }
  }

  /** The target as placed by `repositionPokemon`: unchanged before the
      playfield size is known; otherwise in the central band on each axis with a
      fresh velocity of magnitude in `[50, 150)` per axis, same size. */
  function Repositioned(ps: PokemonState, size: Size, d: RepositionDraw): (r: PokemonState)
    requires d.Valid()
    ensures size == ZeroSize ==> r == ps
    ensures r.size == ps.size
    ensures size != ZeroSize && 0.0 <= size.width ==> InCentralBand(r.position.x, size.width)
    ensures size != ZeroSize && 0.0 <= size.height ==> InCentralBand(r.position.y, size.height)
    ensures size != ZeroSize ==> RepositionSpeed(r.velocity.x, d.positiveX) && RepositionSpeed(r.velocity.y, d.positiveY)
  {
    if size == ZeroSize then ps
    else
      var marginX := size.width * 0.2;
      var marginY := size.height * 0.2;
      var spanX := size.width - 2.0 * marginX;
      var spanY := size.height - 2.0 * marginY;
      FractionOf(spanX, d.fx);
      FractionOf(spanY, d.fy);
      var newX := marginX + spanX * d.fx;
      var newY := marginY + spanY * d.fy;
      var newVelX := (50.0 + 100.0 * d.fvx) * (if d.positiveX then 1.0 else -1.0);
      var newVelY := (50.0 + 100.0 * d.fvy) * (if d.positiveY then 1.0 else -1.0);
      PokemonState(Offset(newX, newY), Offset(newVelX, newVelY), ps.size)
  }

  // ---------------------------------------------------------------------------
  // The view model

  /** All mutable state of the game, and the operations the UI and the two
      update loops perform on it. */
  class MarbleViewModel {
    var gravity: Offset
    var marbleState: MarbleState
    var containerSize: Size
    var pokemonState: PokemonState
    var hitCount: int
    var isPokemonCaught: bool
    var collisionCooldown: real
    var caughtPokemonSet: set<int>
    var selectedPokemonResId: int
    /** One-shot signal for the haptic collaborator, which clears it. */
    var hitRegistered: bool

    /** Whether a hit has registered since construction or the last reset. */
    ghost var hitSeen: bool
    /** The tick lengths since that hit, oldest first. */
    ghost var dtsSinceHit: seq<real>

    ghost predicate Valid()
      reads this
    {
      0 <= hitCount &&
      (isPokemonCaught <==> CatchHits <= hitCount) &&
      (isPokemonCaught ==> selectedPokemonResId in caughtPokemonSet) &&
      selectedPokemonResId in AllPokemon &&
      caughtPokemonSet <= AllPokemon &&
      AllNonNegative(dtsSinceHit) &&
      (hitSeen ==> collisionCooldown == DecayAll(CooldownTime, dtsSinceHit))
    }

    /** The view model as constructed, with `pick` the index drawn by the
        initial random selection. */
    constructor (pick: nat)
      requires pick < |PossiblePokemonResIds|
      ensures Valid()
      ensures marbleState == MarbleState(Offset(500.0, 1000.0), ZeroOffset, 0.0)
      ensures pokemonState == PokemonState(Offset(750.0, 750.0), ZeroOffset, 75.0)
      ensures containerSize == ZeroSize && gravity == ZeroOffset
      ensures hitCount == 0 && !isPokemonCaught && collisionCooldown == 0.0
      ensures caughtPokemonSet == {} && !hitRegistered
      ensures selectedPokemonResId == PossiblePokemonResIds[pick]
      ensures !hitSeen
    {
      gravity := ZeroOffset;
      marbleState := MarbleState(Offset(500.0, 1000.0), ZeroOffset, 0.0);
      containerSize := ZeroSize;
      pokemonState := PokemonState(Offset(750.0, 750.0), ZeroOffset, 75.0);
      hitCount := 0;
      isPokemonCaught := false;
      collisionCooldown := 0.0;
      caughtPokemonSet := {};
      selectedPokemonResId := Bulbasaur;
      hitRegistered := false;
      hitSeen := false;
      dtsSinceHit := [];
      new;
      SelectRandomPokemon(pick);
    }

    /** A new gravity reading from the sensor (its x and y components). */
    method SetGravity(g: Offset)
      modifies this`gravity
      ensures gravity == g
    {
      gravity := g;
    }

    /** The UI reports the playfield size. */
    method SetContainerSize(size: Size)
      requires Valid()
      modifies this`containerSize
      ensures Valid() && containerSize == size
    {
      containerSize := size;
    }

    /** Select identity number `pick` of the four. */
    method SelectRandomPokemon(pick: nat)
      requires pick < |PossiblePokemonResIds|
      modifies this`selectedPokemonResId
      ensures selectedPokemonResId == PossiblePokemonResIds[pick]
      ensures selectedPokemonResId in AllPokemon
    {
      selectedPokemonResId := PossiblePokemonResIds[pick];
    }

    /** Move the target to a random spot of the central band with a random
        velocity (see `Repositioned`). */
    method RepositionPokemon(draw: RepositionDraw)
      requires draw.Valid()
      modifies this`pokemonState
      ensures pokemonState == Repositioned(old(pokemonState), containerSize, draw)
    {
      if containerSize == ZeroSize {
        return;
      }
      var marginX := containerSize.width * 0.2;
      var marginY := containerSize.height * 0.2;
      var newX := marginX + (containerSize.width - 2.0 * marginX) * draw.fx;
      var newY := marginY + (containerSize.height - 2.0 * marginY) * draw.fy;
      var newVelX := (50.0 + 100.0 * draw.fvx) * (if draw.positiveX then 1.0 else -1.0);
      var newVelY := (50.0 + 100.0 * draw.fvy) * (if draw.positiveY then 1.0 else -1.0);
      pokemonState := PokemonState(Offset(newX, newY), Offset(newVelX, newVelY), pokemonState.size);
    }

    /** One tick of the marble loop over `dt` seconds. */
    method UpdateMarble(dt: real, sqrt: real -> real)
      requires IsSqrt(sqrt)
      modifies this`marbleState
      ensures marbleState == MarbleStep(old(marbleState), containerSize, gravity, dt, sqrt)
    {
      if containerSize == ZeroSize {
        return;
      }
      var acceleration := Acceleration(gravity);
      var newVelocity := Add(marbleState.velocity, Scale(acceleration, dt));
      newVelocity := Scale(newVelocity, Damping);
      var newPosition := Add(marbleState.position, Scale(newVelocity, dt));

      // Constrain to the screen boundaries, one axis at a time.
      var (px, vx) := ClampAxis(newPosition.x, newVelocity.x, containerSize.width);
      newPosition, newVelocity := Offset(px, newPosition.y), Offset(vx, newVelocity.y);
      var (py, vy) := ClampAxis(newPosition.y, newVelocity.y, containerSize.height);
      newPosition, newVelocity := Offset(newPosition.x, py), Offset(newVelocity.x, vy);

      newVelocity := ApplyWaterDrag(newPosition, newVelocity, WaterObstacles, sqrt);
      newPosition, newVelocity := CollideWithObstacles(newPosition, newVelocity, CircularObstacles, BallRadius, sqrt);

      var displacement := sqrt(Norm2(Sub(newPosition, marbleState.position)));
      var newAngle := marbleState.angle + RollAngleDelta(displacement, newVelocity);
      marbleState := MarbleState(newPosition, newVelocity, newAngle);
    }

    /** One target update over `dt` seconds, `r` being the jitter draw. */
    method UpdatePokemon(dt: real, r: real, sqrt: real -> real, cosSin: real -> Offset)
      requires IsSqrt(sqrt) && 0.0 <= r < 1.0
      modifies this`pokemonState
      ensures pokemonState == PokemonStep(old(pokemonState), containerSize, selectedPokemonResId in caughtPokemonSet,
                                          r, dt, sqrt, cosSin)
    {
      if containerSize == ZeroSize {
        return;
      }
      var currentPos := pokemonState.position;
      var currentVel := pokemonState.velocity;
      var pokemonRadius := pokemonState.size / 2.0;

      // Predict the new position and turn back from the walls.
      var newPos := Add(currentPos, Scale(currentVel, dt));
      currentVel := Offset(BounceAxis(newPos.x, currentVel.x, pokemonRadius, containerSize.width),
                           BounceAxis(newPos.y, currentVel.y, pokemonRadius, containerSize.height));
      newPos := Add(currentPos, Scale(currentVel, dt));

      // The pushed-out position computed here is overwritten below.
      newPos, currentVel := CollideWithObstacles(newPos, currentVel, CircularObstacles, pokemonRadius, sqrt);

      var caughtBefore := selectedPokemonResId in caughtPokemonSet;
      var newVel := JitteredVelocity(currentVel, caughtBefore, r, sqrt, cosSin);
      assert newVel == PokemonStep(pokemonState, containerSize, caughtBefore, r, dt, sqrt, cosSin).velocity;
      newPos := Add(currentPos, Scale(newVel, dt));
      pokemonState := PokemonState(newPos, newVel, pokemonState.size);
    }

    /** The hit check: a hit registers exactly when the marble overlaps the
        target and the cooldown has run out (the caught flag is not consulted).
        A hit counts, restarts the cooldown, raises the one-shot signal and
        repositions the target; from the third hit on the target is caught and
        the selected identity joins the caught set. Otherwise nothing changes. */
    method CheckCollisionBallPokemon(sqrt: real -> real, draw: RepositionDraw)
      requires Valid() && IsSqrt(sqrt) && draw.Valid()
      modifies this
      ensures Valid()
      ensures Overlaps(old(marbleState), old(pokemonState)) && old(collisionCooldown) <= 0.0 ==>
        hitCount == old(hitCount) + 1 &&
        collisionCooldown == CooldownTime &&
        hitRegistered &&
        pokemonState == Repositioned(old(pokemonState), containerSize, draw) &&
        isPokemonCaught == (CatchHits <= hitCount) &&
        caughtPokemonSet == (if CatchHits <= hitCount then old(caughtPokemonSet) + {selectedPokemonResId}
                             else old(caughtPokemonSet)) &&
        marbleState == old(marbleState) && selectedPokemonResId == old(selectedPokemonResId) &&
        containerSize == old(containerSize) && gravity == old(gravity) &&
        hitSeen && dtsSinceHit == [] &&
        (old(hitSeen) ==> CooldownTime <= Sum(old(dtsSinceHit)))
      ensures !(Overlaps(old(marbleState), old(pokemonState)) && old(collisionCooldown) <= 0.0) ==>
        unchanged(this)
      ensures caughtPokemonSet == old(caughtPokemonSet) || caughtPokemonSet == old(caughtPokemonSet) + {selectedPokemonResId}
      ensures |caughtPokemonSet| <= 4
    {
      var overlapping := BallTouchesPokemon(marbleState, pokemonState, sqrt);
      if overlapping && collisionCooldown <= 0.0 {
        if hitSeen {
          CooldownSpacing(dtsSinceHit);
        }
        hitCount := hitCount + 1;
        collisionCooldown := CooldownTime;
        hitRegistered := true;
        hitSeen, dtsSinceHit := true, [];
        RepositionPokemon(draw);
        if hitCount >= CatchHits {
          isPokemonCaught := true;
          caughtPokemonSet := caughtPokemonSet + {selectedPokemonResId};
        }
      }
      CaughtSetBound(caughtPokemonSet);
    }

    /** One tick of the target loop over `dt` seconds: the target moves unless
        caught, the cooldown decays while positive, then the hit check runs. */
    method Tick(dt: real, r: real, sqrt: real -> real, cosSin: real -> Offset, draw: RepositionDraw)
      requires Valid() && IsSqrt(sqrt) && 0.0 <= dt && 0.0 <= r < 1.0 && draw.Valid()
      modifies this
      ensures Valid()
      ensures
        var moved := if old(isPokemonCaught) then old(pokemonState)
                     else PokemonStep(old(pokemonState), containerSize, selectedPokemonResId in old(caughtPokemonSet),
                                      r, dt, sqrt, cosSin);
        var cooled := Decay(old(collisionCooldown), dt);
        if Overlaps(marbleState, moved) && cooled <= 0.0 then
          hitCount == old(hitCount) + 1 &&
          collisionCooldown == CooldownTime &&
          hitRegistered &&
          pokemonState == Repositioned(moved, containerSize, draw) &&
          caughtPokemonSet == (if CatchHits <= hitCount then old(caughtPokemonSet) + {selectedPokemonResId}
                               else old(caughtPokemonSet))
        else
          hitCount == old(hitCount) &&
          collisionCooldown == cooled &&
          hitRegistered == old(hitRegistered) &&
          pokemonState == moved &&
          caughtPokemonSet == old(caughtPokemonSet)
      ensures isPokemonCaught == (CatchHits <= hitCount)
      ensures marbleState == old(marbleState) && selectedPokemonResId == old(selectedPokemonResId)
      ensures containerSize == old(containerSize) && gravity == old(gravity)
      ensures hitCount == old(hitCount) + 1 && old(hitSeen) ==> CooldownTime <= Sum(old(dtsSinceHit) + [dt])
      ensures |caughtPokemonSet| <= 4
    {
      if !isPokemonCaught {
        UpdatePokemon(dt, r, sqrt, cosSin);
      }
      if collisionCooldown > 0.0 {
        collisionCooldown := collisionCooldown - dt;
      }
      dtsSinceHit := dtsSinceHit + [dt];
      assert dtsSinceHit[..|dtsSinceHit| - 1] == old(dtsSinceHit);
      CheckCollisionBallPokemon(sqrt, draw);
    }

    /** Start a new round: counts, flags and cooldown cleared, the marble back
        at its start pose, a new identity `PossiblePokemonResIds[pick]` and a
        repositioned target; the caught set is emptied only when it holds all
        four identities. */
    method ResetGame(pick: nat, draw: RepositionDraw)
      requires Valid() && pick < |PossiblePokemonResIds| && draw.Valid()
      modifies this
      ensures Valid()
      ensures hitCount == 0 && !isPokemonCaught && collisionCooldown == 0.0
      ensures marbleState == MarbleState(Offset(750.0, 750.0), ZeroOffset, 0.0)
      ensures selectedPokemonResId == PossiblePokemonResIds[pick]
      ensures pokemonState == Repositioned(old(pokemonState), containerSize, draw)
      ensures caughtPokemonSet == if |old(caughtPokemonSet)| == 4 then {} else old(caughtPokemonSet)
      ensures old(caughtPokemonSet) != {} ==> (caughtPokemonSet == {} <==> old(caughtPokemonSet) == AllPokemon)
      ensures containerSize == old(containerSize) && gravity == old(gravity) && hitRegistered == old(hitRegistered)
      ensures !hitSeen
    {
      CaughtSetBound(caughtPokemonSet);
      hitCount := 0;
      isPokemonCaught := false;
      marbleState := MarbleState(Offset(750.0, 750.0), ZeroOffset, 0.0);
      SelectRandomPokemon(pick);
      RepositionPokemon(draw);
      collisionCooldown := 0.0;
      hitSeen, dtsSinceHit := false, [];
      if |caughtPokemonSet| == 4 {
        caughtPokemonSet := {};
      }
    }
  }

  // ---------------------------------------------------------------------------
  // Two consequences of the hit check for a caller

  /** The third hit on an overlapping target with an expired cooldown catches
      it and records its identity. */
  method ThirdHitCatches(vm: MarbleViewModel, sqrt: real -> real, draw: RepositionDraw)
    requires vm.Valid() && IsSqrt(sqrt) && draw.Valid()
    requires vm.hitCount == 2 && vm.collisionCooldown <= 0.0 && Overlaps(vm.marbleState, vm.pokemonState)
    modifies vm
    ensures vm.hitCount == 3 && vm.isPokemonCaught && vm.selectedPokemonResId in vm.caughtPokemonSet
    ensures vm.caughtPokemonSet == old(vm.caughtPokemonSet) + {old(vm.selectedPokemonResId)}
  {
    vm.CheckCollisionBallPokemon(sqrt, draw);
  }

  /** The hit check does not consult the caught flag: a caught target that is
      hit again after the cooldown counts a fourth (fifth, ...) hit, stays
      caught, and the caught set does not change. */
  method HitAfterCatch(vm: MarbleViewModel, sqrt: real -> real, draw: RepositionDraw)
    requires vm.Valid() && IsSqrt(sqrt) && draw.Valid()
    requires vm.isPokemonCaught && vm.collisionCooldown <= 0.0 && Overlaps(vm.marbleState, vm.pokemonState)
    modifies vm
    ensures vm.hitCount == old(vm.hitCount) + 1 && vm.hitCount > CatchHits
    ensures vm.isPokemonCaught && vm.caughtPokemonSet == old(vm.caughtPokemonSet)
  {
    vm.CheckCollisionBallPokemon(sqrt, draw);
  }
}
