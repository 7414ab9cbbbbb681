/** The two physics bodies of the game: the marble (the Pokéball steered by
    tilting the device) and the Pokémon target, the static obstacle field, and
    one update step of each body. */
module Physics {
  import opened Geometry

  const BallRadius: real := 25.0
  const Damping: real := 0.99
  const Restitution: real := 0.75
  const WaterDampingFactor: real := 0.75
  /** Scale from a gravity reading to on-screen acceleration. */
  const GravityScale: real := 666.0
  /** `PI.toFloat()`: the single-precision value of pi, written as a decimal. */
  const PiF: real := 3.1415927
  const RotationMultiplier: real := 0.3

  datatype MarbleState = MarbleState(position: Offset, velocity: Offset, angle: real)
  datatype PokemonState = PokemonState(position: Offset, velocity: Offset, size: real)
  datatype CircularObstacle = CircularObstacle(center: Offset, radius: real)
  datatype WaterObstacle = WaterObstacle(center: Offset, radius: real)

  /** The solid obstacles, in the order they are resolved. */
  const CircularObstacles: seq<CircularObstacle> := [
    CircularObstacle(Offset(0.0, 0.0), 200.0),
    CircularObstacle(Offset(-150.0, 200.0), 200.0),
    CircularObstacle(Offset(200.0, -150.0), 200.0),
    CircularObstacle(Offset(1050.0, 0.0), 200.0),
    CircularObstacle(Offset(750.0, -100.0), 200.0),
    CircularObstacle(Offset(-50.0, 1750.0), 200.0),
    CircularObstacle(Offset(200.0, 1900.0), 200.0),
    CircularObstacle(Offset(-150.0, 1550.0), 200.0),
    CircularObstacle(Offset(1050.0, 1700.0), 200.0),
    CircularObstacle(Offset(850.0, 1850.0), 200.0),
    CircularObstacle(Offset(740.0, 305.0), 75.0),
    CircularObstacle(Offset(160.0, 400.0), 70.0),
    CircularObstacle(Offset(920.0, 975.0), 70.0)
  ]

  /** The drag zones, in the order they are tested. */
  const WaterObstacles: seq<WaterObstacle> := [
    WaterObstacle(Offset(125.0, 1575.0), 175.0),
    WaterObstacle(Offset(175.0, 1575.0), 175.0),
    WaterObstacle(Offset(225.0, 1575.0), 175.0)
  ]

  /** `pos` is strictly closer to `center` than `minDistance`, stated without a
      square root (see `Geometry.DistanceBelow`). */
  predicate Penetrates(pos: Offset, center: Offset, minDistance: real) {
    0.0 < minDistance && Norm2(Sub(pos, center)) < minDistance * minDistance
  }

  // ---------------------------------------------------------------------------
  // Obstacle collision response, shared by both bodies

  /** The unit vector from the obstacle's centre towards the body, given the
      offset `diff` between them and its length `d`; `(1, 0)` when they coincide. */
  function ContactNormal(diff: Offset, d: real): Offset {
    if d == 0.0 then Offset(1.0, 0.0) else Offset(diff.x / d, diff.y / d)
  }

  /** Given the true distance `d`, the contact normal is a unit vector, and
      away from the centre it points along the offset: `d` times it is `diff`. */
  lemma ContactNormalUnit(diff: Offset, d: real)
    requires 0.0 <= d && d * d == Norm2(diff)
    ensures Norm2(ContactNormal(diff, d)) == 1.0
    ensures 0.0 < d ==> Scale(ContactNormal(diff, d), d) == diff
  {
    UnitNormal(diff, d);
  }

  /** Resolve one obstacle for a body of radius `bodyRadius` at `pos` moving with
      `vel`, given `d`, the distance from `pos` to the obstacle's centre: when the
      body penetrates, push it out along the contact normal (`(1, 0)` when the
      centres coincide) and reflect its velocity about that normal, keeping
      `Restitution` of it. */
  function ResolveObstacle(pos: Offset, vel: Offset, o: CircularObstacle, bodyRadius: real, d: real): (Offset, Offset)
    requires 0.0 <= d && d * d == Norm2(Sub(pos, o.center))
  {
    var minDistance := bodyRadius + o.radius;
    var diff := Sub(pos, o.center);
    if d < minDistance then
      var penetration := minDistance - d;
      var normal := ContactNormal(diff, d);
      var dot := Dot(vel, normal);
      (Add(pos, Scale(normal, penetration)), Scale(Sub(vel, Scale(normal, 2.0 * dot)), Restitution))
    else
      (pos, vel)
  }

  /** What resolving one obstacle does: it acts exactly when the body penetrates
      the obstacle, and then leaves the body touching it with its speed scaled
      by `Restitution`; otherwise it changes nothing. */
  lemma ResolveObstacleSound(pos: Offset, vel: Offset, o: CircularObstacle, bodyRadius: real, d: real)
    requires 0.0 <= d && d * d == Norm2(Sub(pos, o.center))
    ensures
      var r := ResolveObstacle(pos, vel, o, bodyRadius, d);
      var minDistance := bodyRadius + o.radius;
      (Penetrates(pos, o.center, minDistance) ==>
         Norm2(Sub(r.0, o.center)) == minDistance * minDistance &&
         Norm2(r.1) == Restitution * Restitution * Norm2(vel)) &&
      (!Penetrates(pos, o.center, minDistance) ==> r == (pos, vel))
  {
    var minDistance := bodyRadius + o.radius;
    var diff := Sub(pos, o.center);
    DistanceBelow(d, Norm2(diff), minDistance);
    if d < minDistance {
      var normal := ContactNormal(diff, d);
      assert ResolveObstacle(pos, vel, o, bodyRadius, d) ==
        (Add(pos, Scale(normal, minDistance - d)), Scale(Sub(vel, Scale(normal, 2.0 * Dot(vel, normal))), Restitution));
      PenetratingContact(pos, vel, o.center, minDistance, d);
    } else {
      assert ResolveObstacle(pos, vel, o, bodyRadius, d) == (pos, vel);
    }
  }

  /** The penetrating case of `ResolveObstacle`, with `c` the obstacle's centre. */
  lemma PenetratingContact(pos: Offset, vel: Offset, c: Offset, minDistance: real, d: real)
    requires 0.0 <= d < minDistance && d * d == Norm2(Sub(pos, c))
    ensures
      var normal := ContactNormal(Sub(pos, c), d);
      Norm2(Sub(Add(pos, Scale(normal, minDistance - d)), c)) == minDistance * minDistance &&
      Norm2(Scale(Sub(vel, Scale(normal, 2.0 * Dot(vel, normal))), Restitution)) == Restitution * Restitution * Norm2(vel)
  {
    var diff := Sub(pos, c);
    var normal := ContactNormal(diff, d);
    ShiftOffset(pos, c, Scale(normal, minDistance - d));
    PushOutTouches(diff, d, minDistance);
    ContactNormalUnit(diff, d);
    ReflectKeepsLength(vel, normal);
    ScaleNorm2(Sub(vel, Scale(normal, 2.0 * Dot(vel, normal))), Restitution);
  }

  lemma SquareOfProduct(a: real, b: real)
    ensures a * a * (b * b) == (a * b) * (a * b)
  {
  }

  lemma UnitNormal(diff: Offset, d: real)
    ensures 0.0 < d && d * d == Norm2(diff) ==> Norm2(Offset(diff.x / d, diff.y / d)) == 1.0
  {
    if 0.0 < d && d * d == Norm2(diff) {
      var k := 1.0 / d;
      assert Offset(diff.x / d, diff.y / d) == Scale(diff, k);
      ScaleNorm2(diff, k);
      var kd := k * d;
      assert kd == 1.0;
      SquareOfProduct(k, d);
    }
  }

  /** Reflecting about a unit normal keeps the length of a vector. */
  lemma ReflectKeepsLength(v: Offset, n: Offset)
    requires Norm2(n) == 1.0
    ensures Norm2(Sub(v, Scale(n, 2.0 * Dot(v, n)))) == Norm2(v)
  {
    var t := 2.0 * Dot(v, n);
    var dot := Dot(v, n);
    var tt := t * t;
    calc {
      Norm2(Sub(v, Scale(n, t)));
      (v.x - n.x * t) * (v.x - n.x * t) + (v.y - n.y * t) * (v.y - n.y * t);
      Norm2(v) - 2.0 * t * dot + tt * Norm2(n);
      Norm2(v) - 2.0 * t * dot + tt;
      Norm2(v);
    }
  }

  lemma SquarePositive(a: real)
    ensures 0.0 <= a * a
    ensures a != 0.0 ==> 0.0 < a * a
  {
    if a < 0.0 {
      var b := -a;
      assert a * a == b * b;
    }
  }

  lemma SquareZero(a: real)
    requires a * a == 0.0
    ensures a == 0.0
  {
    if a != 0.0 {
      SquarePositive(a);
      calc {
        0.0;
        a * a;
      >
        0.0;
      }
    }
  }

  lemma ZeroLength(v: Offset)
    requires Norm2(v) == 0.0
    ensures v == ZeroOffset
  {
    SquarePositive(v.x);
    SquarePositive(v.y);
    var xx, yy := v.x * v.x, v.y * v.y;
    assert xx == 0.0 && yy == 0.0;
    SquareZero(v.x);
    SquareZero(v.y);
  }

  /** A vector of length `d` scaled by `j` has length `j * d`. */
  lemma ScaledLength(v: Offset, d: real, j: real)
    requires d * d == Norm2(v)
    ensures Norm2(Scale(v, j)) == (j * d) * (j * d)
  {
    ScaleNorm2(v, j);
    SquareOfProduct(j, d);
  }

  /** Adding `t` times a vector to itself scales it by `1 + t`. */
  lemma AddOwnMultiple(v: Offset, t: real)
    ensures Add(v, Scale(v, t)) == Scale(v, 1.0 + t)
  {
    assert v.x + v.x * t == v.x * (1.0 + t);
    assert v.y + v.y * t == v.y * (1.0 + t);
  }

  lemma DivideByScaling(diff: Offset, d: real, pen: real)
    requires d != 0.0
    ensures Scale(Offset(diff.x / d, diff.y / d), pen) == Scale(diff, pen / d)
  {
    DivideThenScale(diff.x, d, pen);
    DivideThenScale(diff.y, d, pen);
  }

  lemma PushOutReach(d: real, pen: real)
    requires d != 0.0
    ensures (1.0 + pen / d) * d == d + pen
  {
    var t := pen / d;
    assert t * d == pen;
  }

  /** Moving a point by `w` moves its offset from `c` by `w`. */
  lemma ShiftOffset(pos: Offset, c: Offset, w: Offset)
    ensures Sub(Add(pos, w), c) == Add(Sub(pos, c), w)
  {
  }

  /** Pushing out along the contact normal by the penetration depth leaves the
      body exactly touching the obstacle: `v` is the offset from the obstacle's
      centre to the body and `d` its length. */
  lemma PushOutTouches(v: Offset, d: real, minDistance: real)
    requires 0.0 <= d < minDistance && d * d == Norm2(v)
    ensures Norm2(Add(v, Scale(ContactNormal(v, d), minDistance - d))) == minDistance * minDistance
  {
    var pen := minDistance - d;
    if d == 0.0 {
      assert Norm2(v) == 0.0;
      ZeroLength(v);
      PushOutFromCentre(v, d, minDistance);
    } else {
      assert ContactNormal(v, d) == Offset(v.x / d, v.y / d);
      PushOutAlongOffset(v, d, minDistance);
    }
  }

  /** `PushOutTouches` for a body at the obstacle's exact centre, pushed along `(1, 0)`. */
  lemma PushOutFromCentre(v: Offset, d: real, minDistance: real)
    requires v == ZeroOffset && d == 0.0
    ensures Norm2(Add(v, Scale(ContactNormal(v, d), minDistance - d))) == minDistance * minDistance
  {
    var n := ContactNormal(v, d);
    assert n.x == 1.0 && n.y == 0.0;
    var k := minDistance - d;
    assert k == minDistance;
    var sc := Scale(n, k);
    assert sc.x == minDistance && sc.y == 0.0;
    var moved := Add(v, sc);
    assert moved.x == minDistance && moved.y == 0.0;
    assert Norm2(moved) == moved.x * moved.x + moved.y * moved.y;
  }

  /** `PushOutTouches` for a body off the obstacle's centre, along `v / d`. */
  lemma PushOutAlongOffset(v: Offset, d: real, minDistance: real)
    requires 0.0 < d < minDistance && d * d == Norm2(v)
    ensures Norm2(Add(v, Scale(Offset(v.x / d, v.y / d), minDistance - d))) == minDistance * minDistance
  {
    var pen := minDistance - d;
    var t := pen / d;
    calc {
      Norm2(Add(v, Scale(Offset(v.x / d, v.y / d), pen)));
      { DivideByScaling(v, d, pen); }
      Norm2(Add(v, Scale(v, t)));
      { AddOwnMultiple(v, t); }
      Norm2(Scale(v, 1.0 + t));
      { ScaledLength(v, d, 1.0 + t); }
      ((1.0 + t) * d) * ((1.0 + t) * d);
      { PushOutReach(d, pen); }
      minDistance * minDistance;
    }
  }

  /** All obstacles of `obstacles`, resolved one after the other in list order. */
  function ResolveAll(pos: Offset, vel: Offset, obstacles: seq<CircularObstacle>, bodyRadius: real,
                      sqrt: real -> real): (Offset, Offset)
    requires IsSqrt(sqrt)
    decreases |obstacles|
  {
    if obstacles == [] then (pos, vel)
    else
      var (p, v) := ResolveAll(pos, vel, obstacles[..|obstacles| - 1], bodyRadius, sqrt);
      var o := obstacles[|obstacles| - 1];
      ResolveObstacle(p, v, o, bodyRadius, sqrt(Norm2(Sub(p, o.center))))
  }

  /** Obstacle collisions never add speed: every resolution keeps
      `Restitution` of it or leaves it alone. */
  lemma {:induction false} ResolveAllNeverSpeedsUp(pos: Offset, vel: Offset, obstacles: seq<CircularObstacle>,
                                                   bodyRadius: real, sqrt: real -> real)
    requires IsSqrt(sqrt)
    ensures Norm2(ResolveAll(pos, vel, obstacles, bodyRadius, sqrt).1) <= Norm2(vel)
    decreases |obstacles|
  {
    if obstacles != [] {
      var prefix := obstacles[..|obstacles| - 1];
      ResolveAllNeverSpeedsUp(pos, vel, prefix, bodyRadius, sqrt);
      var (p, v) := ResolveAll(pos, vel, prefix, bodyRadius, sqrt);
      var o := obstacles[|obstacles| - 1];
      ResolveObstacleSound(p, v, o, bodyRadius, sqrt(Norm2(Sub(p, o.center))));
    }
  }

  /** After the pass, the body does not penetrate the obstacle resolved last
      (earlier ones may have been re-entered by later push-outs). */
  lemma LastObstacleCleared(pos: Offset, vel: Offset, obstacles: seq<CircularObstacle>,
                            bodyRadius: real, sqrt: real -> real)
    requires IsSqrt(sqrt) && obstacles != []
    ensures
      var last := obstacles[|obstacles| - 1];
      !Penetrates(ResolveAll(pos, vel, obstacles, bodyRadius, sqrt).0, last.center, bodyRadius + last.radius)
  {
    var (p, v) := ResolveAll(pos, vel, obstacles[..|obstacles| - 1], bodyRadius, sqrt);
    var o := obstacles[|obstacles| - 1];
    ResolveObstacleSound(p, v, o, bodyRadius, sqrt(Norm2(Sub(p, o.center))));
  }

  /** The `for (obstacle in circularObstacles)` loop of either body. */
  method CollideWithObstacles(pos: Offset, vel: Offset, obstacles: seq<CircularObstacle>, bodyRadius: real,
                              sqrt: real -> real)
    returns (newPos: Offset, newVel: Offset)
    requires IsSqrt(sqrt)
    ensures (newPos, newVel) == ResolveAll(pos, vel, obstacles, bodyRadius, sqrt)
  {
    newPos, newVel := pos, vel;
    for i := 0 to |obstacles|
      invariant (newPos, newVel) == ResolveAll(pos, vel, obstacles[..i], bodyRadius, sqrt)
    {
      var obstacle := obstacles[i];
      assert obstacles[..i + 1][..i] == obstacles[..i];
      var diff := Sub(newPos, obstacle.center);
      var distance := sqrt(Norm2(diff));
      var resolved := ResolveObstacle(newPos, newVel, obstacle, bodyRadius, distance);
      newPos, newVel := resolved.0, resolved.1;
    }
    assert obstacles[..|obstacles|] == obstacles;
  }

  // ---------------------------------------------------------------------------
  // Water drag

  /** `pos` lies in water zone `w`; the zone lies within the square of side
      `2 * w.radius` around its centre. */
  predicate InWater(pos: Offset, w: WaterObstacle)
    ensures InWater(pos, w) ==> Abs(pos.x - w.center.x) < w.radius && Abs(pos.y - w.center.y) < w.radius
  {
    AxisBelow(Sub(pos, w.center), w.radius);
    Penetrates(pos, w.center, w.radius)
  }

  /** A point strictly inside a circle of radius `R` around the origin lies
      strictly inside the square of side `2 * R`. */
  lemma AxisBelow(v: Offset, R: real)
    ensures 0.0 < R && Norm2(v) < R * R ==> Abs(v.x) < R && Abs(v.y) < R
  {
    if 0.0 < R && Norm2(v) < R * R {
      var xx, yy := v.x * v.x, v.y * v.y;
      SquarePositive(v.x);
      SquarePositive(v.y);
      assert Abs(v.x) * Abs(v.x) == xx;
      assert Abs(v.y) * Abs(v.y) == yy;
      DistanceBelow(Abs(v.x), xx, R);
      DistanceBelow(Abs(v.y), yy, R);
    }
  }

  /** The three drag zones form one pool in the lower-left corner of the
      layout: a wet position has `-50 < x < 400` and `1400 < y < 1750`, and
      every position within 175 of `(175, 1575)` is wet. */
  lemma WaterPool(pos: Offset)
    ensures InAnyWater(pos, WaterObstacles) ==> -50.0 < pos.x < 400.0 && 1400.0 < pos.y < 1750.0
    ensures Norm2(Sub(pos, Offset(175.0, 1575.0))) < 175.0 * 175.0 ==> InAnyWater(pos, WaterObstacles)
  {
    if InAnyWater(pos, WaterObstacles) {
      var i :| 0 <= i < |WaterObstacles| && InWater(pos, WaterObstacles[i]);
      assert i == 0 || i == 1 || i == 2;
    }
    if Norm2(Sub(pos, Offset(175.0, 1575.0))) < 175.0 * 175.0 {
      assert InWater(pos, WaterObstacles[1]);
    }
  }

  predicate InAnyWater(pos: Offset, zones: seq<WaterObstacle>) {
    exists i :: 0 <= i < |zones| && InWater(pos, zones[i])
  }

  /** The marble's water loop: the velocity is scaled by the drag factor once if
      some zone contains the position (the loop stops at the first match), and
      is left alone otherwise. */
  method ApplyWaterDrag(pos: Offset, vel: Offset, zones: seq<WaterObstacle>, sqrt: real -> real)
    returns (newVel: Offset)
    requires IsSqrt(sqrt)
    ensures InAnyWater(pos, zones) ==> newVel == Scale(vel, WaterDampingFactor)
    ensures !InAnyWater(pos, zones) ==> newVel == vel
  {
    newVel := vel;
    var i := 0;
    while i < |zones|
      invariant 0 <= i <= |zones|
      invariant newVel == vel
      invariant forall j :: 0 <= j < i ==> !InWater(pos, zones[j])
    {
      var water := zones[i];
      var diff := Sub(pos, water.center);
      var distanceToWaterCenter := sqrt(diff.x * diff.x + diff.y * diff.y);
      DistanceBelow(distanceToWaterCenter, Norm2(diff), water.radius);
      if distanceToWaterCenter < water.radius {
        newVel := Scale(newVel, WaterDampingFactor);
        break;
      }
      i := i + 1;
    }
  }

  // ---------------------------------------------------------------------------
  // Screen boundaries

  /** One axis of the marble's boundary constraint: a coordinate `p` whose ball
      pokes out of `[0, dim]` is put back against the wall it crossed (the low
      wall wins when both are crossed) and its velocity component reverses,
      keeping `Restitution` of it. Returns the new coordinate and velocity. */
  function ClampAxis(p: real, v: real, dim: real): (r: (real, real))
    ensures r.0 != p <==> p < BallRadius || dim - BallRadius < p
    ensures r.0 == p ==> r.1 == v
    ensures r.0 != p ==> r.1 == -v * Restitution
    ensures p < BallRadius ==> r.0 == BallRadius
    ensures BallRadius <= p && dim - BallRadius < p ==> r.0 == dim - BallRadius
    ensures 2.0 * BallRadius <= dim ==> BallRadius <= r.0 <= dim - BallRadius
  {
    if p - BallRadius < 0.0 then (BallRadius, -v * Restitution)
    else if p + BallRadius > dim then (dim - BallRadius, -v * Restitution)
    else (p, v)
  }

  /** One axis of the target's boundary bounce: the velocity component keeps its
      magnitude and is turned to point back into the playfield when the
      predicted coordinate `p` pokes out of `[0, dim]` (the low wall wins). */
  function BounceAxis(p: real, v: real, radius: real, dim: real): (r: real)
    ensures Abs(r) == Abs(v)
    ensures p < radius ==> 0.0 <= r
    ensures radius <= p && dim - radius < p ==> r <= 0.0
    ensures radius <= p <= dim - radius ==> r == v
  {
    if p - radius < 0.0 then Abs(v)
    else if p + radius > dim then -Abs(v)
    else v
  }

  // ---------------------------------------------------------------------------
  // Rolling angle of the marble

  /** +1 or -1: the sign of the velocity component of larger magnitude (ties
      go to the vertical axis, and a zero component counts as negative). */
  function SignFactor(v: Offset): (s: real)
    ensures s == 1.0 || s == -1.0
  {
    if Abs(v.x) > Abs(v.y) then (if v.x > 0.0 then 1.0 else -1.0)
    else (if v.y > 0.0 then 1.0 else -1.0)
  }

  /** The change of the rolling angle (degrees) for a displacement of length
      `displacement` ending with velocity `v`. */
  function RollAngleDelta(displacement: real, v: Offset): (delta: real)
    requires 0.0 <= displacement
    ensures Abs(delta) * BallRadius * PiF == displacement * 180.0 * RotationMultiplier
    ensures 0.0 < delta <==> 0.0 < displacement && SignFactor(v) == 1.0
    ensures delta < 0.0 <==> 0.0 < displacement && SignFactor(v) == -1.0
  {
    var baseDeltaAngle := (displacement / BallRadius) * (180.0 / PiF);
    baseDeltaAngle * RotationMultiplier * SignFactor(v)
  }

  // ---------------------------------------------------------------------------
  // One step of each body

  /** Acceleration from a gravity reading: the horizontal axis is mirrored. */
  function Acceleration(g: Offset): Offset {
    Offset(-g.x * GravityScale, g.y * GravityScale)
  }

  /** The acceleration is the reading scaled by `GravityScale`, so its size is
      `GravityScale` times the reading's; its horizontal component opposes the
      reading's and its vertical component follows it. */
  lemma AccelerationFromReading(g: Offset)
    ensures Norm2(Acceleration(g)) == GravityScale * GravityScale * Norm2(g)
    ensures Acceleration(g).x * g.x <= 0.0 && 0.0 <= Acceleration(g).y * g.y
  {
    var mirrored := Offset(-g.x, g.y);
    assert Norm2(mirrored) == Norm2(g);
    assert Acceleration(g) == Scale(mirrored, GravityScale);
    ScaleNorm2(mirrored, GravityScale);
    SquarePositive(g.x);
    SquarePositive(g.y);
  }

  /** One marble update over `dt` under gravity reading `g`: integrate with
      damping, clamp to the playfield, apply water drag, resolve obstacles and
      roll. Nothing happens before the playfield size is known. */
  function MarbleStep(m: MarbleState, size: Size, g: Offset, dt: real, sqrt: real -> real): (next: MarbleState)
    requires IsSqrt(sqrt)
    ensures size == ZeroSize ==> next == m
  {
    if size == ZeroSize then m
    else
      var v0 := DampedVelocity(m, g, dt);
      var p0 := Add(m.position, Scale(v0, dt));
      var (px, vx) := ClampAxis(p0.x, v0.x, size.width);
      var (py, vy) := ClampAxis(p0.y, v0.y, size.height);
      var p1 := Offset(px, py);
      var v1 := if InAnyWater(p1, WaterObstacles) then Scale(Offset(vx, vy), WaterDampingFactor) else Offset(vx, vy);
      var (p2, v2) := ResolveAll(p1, v1, CircularObstacles, BallRadius, sqrt);
      var displacement := sqrt(Norm2(Sub(p2, m.position)));
      MarbleState(p2, v2, m.angle + RollAngleDelta(displacement, v2))
  }

  /** The velocity after integrating gravity over `dt` and damping. */
  function DampedVelocity(m: MarbleState, g: Offset, dt: real): (w: Offset)
    ensures g == ZeroOffset || dt == 0.0 ==> Norm2(w) == Damping * Damping * Norm2(m.velocity)
  {
    var integrated := Add(m.velocity, Scale(Acceleration(g), dt));
    ScaleNorm2(integrated, Damping);
    NoGravityNoPush(g, dt);
    Scale(integrated, Damping)
  }

  lemma NoGravityNoPush(g: Offset, dt: real)
    ensures g == ZeroOffset || dt == 0.0 ==> Scale(Acceleration(g), dt) == ZeroOffset
  {
    if g == ZeroOffset {
      assert Acceleration(g) == ZeroOffset;
    }
  }

  lemma SquareScale(k: real, v: real)
    ensures (k * v) * (k * v) == k * k * (v * v)
  {
  }

  /** A clamped velocity component is never faster than before. */
  lemma ClampNoFaster(p: real, v: real, dim: real)
    ensures ClampAxis(p, v, dim).1 * ClampAxis(p, v, dim).1 <= v * v
  {
    var w := ClampAxis(p, v, dim).1;
    if w != v {
      assert w == -Restitution * v;
      SquareScale(-Restitution, v);
      var vv := v * v;
      SquarePositive(v);
      assert w * w == 0.5625 * vv;
    }
  }

  /** After integration, the marble's boundary bounces, water drag and obstacle
      bounces can only slow it down. */
  lemma MarbleStepDissipates(m: MarbleState, size: Size, g: Offset, dt: real, sqrt: real -> real)
    requires IsSqrt(sqrt) && size != ZeroSize
    ensures Norm2(MarbleStep(m, size, g, dt, sqrt).velocity) <= Norm2(DampedVelocity(m, g, dt))
  {
    var v0 := DampedVelocity(m, g, dt);
    var p0 := Add(m.position, Scale(v0, dt));
    var (px, vx) := ClampAxis(p0.x, v0.x, size.width);
    var (py, vy) := ClampAxis(p0.y, v0.y, size.height);
    ClampNoFaster(p0.x, v0.x, size.width);
    ClampNoFaster(p0.y, v0.y, size.height);
    var clamped := Offset(vx, vy);
    assert Norm2(clamped) <= Norm2(v0);
    var p1 := Offset(px, py);
    var v1 := if InAnyWater(p1, WaterObstacles) then Scale(clamped, WaterDampingFactor) else clamped;
    ScaleNorm2(clamped, WaterDampingFactor);
    assert Norm2(v1) <= Norm2(clamped);
    ResolveAllNeverSpeedsUp(p1, v1, CircularObstacles, BallRadius, sqrt);
  }

  /** The target's cruising speed: identities caught before move slower. */
  function DesiredSpeed(caughtBefore: bool): (s: real)
    ensures 350.0 <= s <= 400.0
    ensures caughtBefore <==> s < 400.0
  {
    if caughtBefore then 350.0 else 400.0
  }

  /** The heading jitter in degrees drawn from `r` in `[0, 1)`: within +-5
      degrees for an identity caught before, +-10 degrees otherwise. */
  function JitterDegrees(caughtBefore: bool, r: real): (deg: real)
    requires 0.0 <= r < 1.0
    ensures caughtBefore ==> -5.0 <= deg < 5.0
    ensures !caughtBefore ==> -10.0 <= deg < 10.0
  {
    if caughtBefore then (r - 0.5) * 10.0 else (r - 0.5) * 20.0
  }

  /** The target's new velocity from its post-collision velocity `v`: turned by
      the jitter angle drawn from `r`, then rescaled to the desired speed. */
  function JitteredVelocity(v: Offset, caughtBefore: bool, r: real, sqrt: real -> real,
                            cosSin: real -> Offset): (w: Offset)
    requires IsSqrt(sqrt) && 0.0 <= r < 1.0
    ensures Norm2(w) == DesiredSpeed(caughtBefore) * DesiredSpeed(caughtBefore)
    ensures v == ZeroOffset ==> w == Offset(DesiredSpeed(caughtBefore), 0.0)
    ensures var cs := cosSin(JitterRadians(caughtBefore, r));
      Norm2(cs) == 1.0 && 0.0 < Norm2(v) ==>
        w == Scale(Rotate(v, cs), DesiredSpeed(caughtBefore) / sqrt(Norm2(v)))
  {
    var cs := cosSin(JitterRadians(caughtBefore, r));
    var turned := Rotate(v, cs);
    var len := sqrt(Norm2(turned));
    RenormalizeSpeed(turned, DesiredSpeed(caughtBefore), len);
    RotatedLength(v, cs, len);
    Renormalize(turned, DesiredSpeed(caughtBefore), len)
  }

  /** The jitter angle in radians. */
  function JitterRadians(caughtBefore: bool, r: real): real
    requires 0.0 <= r < 1.0
  {
    JitterDegrees(caughtBefore, r) * (PiF / 180.0)
  }

  /** The length `len` of a rotated vector is zero for a zero vector, and for a
      rotation by a point of the unit circle is nonzero for any other vector. */
  lemma RotatedLength(v: Offset, cs: Offset, len: real)
    requires 0.0 <= len && len * len == Norm2(Rotate(v, cs))
    ensures v == ZeroOffset ==> len == 0.0
    ensures Norm2(cs) == 1.0 && 0.0 < Norm2(v) ==> len != 0.0 && Norm2(Rotate(v, cs)) == Norm2(v)
  {
    if v == ZeroOffset {
      assert Norm2(v) == 0.0;
      SquareZero(len);
    }
  }

  /** One target update over `dt`: bounce off the walls, resolve obstacles
      (only the velocity survives), jitter the heading, renormalize to the
      desired speed and move from the old position. Nothing happens before the
      playfield size is known. */
  function PokemonStep(ps: PokemonState, size: Size, caughtBefore: bool, r: real, dt: real,
                       sqrt: real -> real, cosSin: real -> Offset): (next: PokemonState)
    requires IsSqrt(sqrt) && 0.0 <= r < 1.0
    ensures size == ZeroSize ==> next == ps
    ensures size != ZeroSize ==>
      Norm2(next.velocity) == DesiredSpeed(caughtBefore) * DesiredSpeed(caughtBefore) &&
      next.position == Add(ps.position, Scale(next.velocity, dt))
    ensures next.size == ps.size
  {
    if size == ZeroSize then ps
    else
      var radius := ps.size / 2.0;
      var predicted := Add(ps.position, Scale(ps.velocity, dt));
      var vel := Offset(BounceAxis(predicted.x, ps.velocity.x, radius, size.width),
                        BounceAxis(predicted.y, ps.velocity.y, radius, size.height));
      var corrected := Add(ps.position, Scale(vel, dt));
      var collided := ResolveAll(corrected, vel, CircularObstacles, radius, sqrt).1;
      var newVel := JitteredVelocity(collided, caughtBefore, r, sqrt, cosSin);
      PokemonState(Add(ps.position, Scale(newVel, dt)), newVel, ps.size)
  }
}
