/** Plane geometry used by both physics bodies: the Compose `Offset` and `Size`
    value types with their float components read as reals, and the numeric
    primitives (square root, cosine/sine) that the game takes from the platform. */
module Geometry {

  /** A 2-D vector (a position, a velocity or a difference of positions). */
  datatype Offset = Offset(x: real, y: real)

  /** The playfield size reported by the UI. */
  datatype Size = Size(width: real, height: real)

  const ZeroOffset: Offset := Offset(0.0, 0.0)

  /** `Size.Zero`: the UI has not reported a container size yet. */
  const ZeroSize: Size := Size(0.0, 0.0)

  function Add(a: Offset, b: Offset): Offset { Offset(a.x + b.x, a.y + b.y) }

  function Sub(a: Offset, b: Offset): Offset { Offset(a.x - b.x, a.y - b.y) }

  function Scale(a: Offset, k: real): Offset { Offset(a.x * k, a.y * k) }

  function Dot(a: Offset, b: Offset): real { a.x * b.x + a.y * b.y }

  function Abs(r: real): real { if r < 0.0 then -r else r }

  /** The squared length of a vector; never negative. */
  function Norm2(a: Offset): (n: real)
    ensures 0.0 <= n
  {
    a.x * a.x + a.y * a.y
  }

  /** `sqrt` is the (non-negative) square root on the non-negative reals. */
  ghost predicate IsSqrt(sqrt: real -> real) {
    forall s :: 0.0 <= s ==> 0.0 <= sqrt(s) && sqrt(s) * sqrt(s) == s
  }

  /** Comparing a distance with a bound is the same as comparing squares,
      which is how the specifications below state "closer than". */
  lemma DistanceBelow(d: real, s: real, bound: real)
    requires 0.0 <= d && d * d == s
    ensures d < bound <==> 0.0 < bound && s < bound * bound
  {
    var dd, db, bb := d * d, d * bound, bound * bound;
    if d < bound {
      assert dd <= db;
      assert db < bb;
    } else if 0.0 < bound {
      assert bb <= db;
      assert db <= dd;
    }
  }

  /** The identity behind rotation: `(ac - bs)² + (as + bc)² == (a² + b²)(c² + s²)`. */
  lemma RotationIdentity(a: real, b: real, c: real, s: real)
    ensures (a * c - b * s) * (a * c - b * s) + (a * s + b * c) * (a * s + b * c) == (a * a + b * b) * (c * c + s * s)
  {
    calc {
      (a * c - b * s) * (a * c - b * s) + (a * s + b * c) * (a * s + b * c);
      a * a * (c * c + s * s) + b * b * (c * c + s * s);
    }
  }

  /** Turn `v` by the angle whose cosine and sine are `cs.x` and `cs.y`
      (the 2-D rotation matrix). The squared length is multiplied by that of
      `cs`, so a point of the unit circle keeps the length of `v`. */
  function Rotate(v: Offset, cs: Offset): (r: Offset)
    ensures Norm2(r) == Norm2(v) * Norm2(cs)
  {
    RotationIdentity(v.x, v.y, cs.x, cs.y);
    Offset(v.x * cs.x - v.y * cs.y, v.x * cs.y + v.y * cs.x)
  }

  /** Scaling a vector by `k` scales its squared length by `k * k`. */
  lemma ScaleNorm2(v: Offset, k: real)
    ensures Norm2(Scale(v, k)) == k * k * Norm2(v)
  {
    calc {
      Norm2(Scale(v, k));
      (v.x * k) * (v.x * k) + (v.y * k) * (v.y * k);
      k * k * (v.x * v.x + v.y * v.y);
    }
  }

  lemma DivideThenScale(a: real, len: real, speed: real)
    requires len != 0.0
    ensures a / len * speed == a * (speed / len)
  {
    var q := speed / len;
    assert q * len == speed;
    assert (a / len) * len == a;
    calc {
      a / len * speed;
      a / len * (q * len);
      (a / len * len) * q;
      a * q;
    }
  }

  /** Rescale `v` to length `speed`, given its length `len`; a zero vector
      falls back to `(speed, 0)`. */
  function Renormalize(v: Offset, speed: real, len: real): (r: Offset)
    requires 0.0 <= len && len * len == Norm2(v)
    ensures len != 0.0 ==> r == Scale(v, speed / len)
  {
    if len != 0.0 then
      DivideThenScale(v.x, len, speed);
      DivideThenScale(v.y, len, speed);
      Offset(v.x / len * speed, v.y / len * speed)
    else
      Offset(speed, 0.0)
  }

  /** Whatever the direction, the renormalized vector has length `speed`. */
  lemma RenormalizeSpeed(v: Offset, speed: real, len: real)
    requires 0.0 <= len && len * len == Norm2(v)
    ensures Norm2(Renormalize(v, speed, len)) == speed * speed
  {
    if len != 0.0 {
      var k := speed / len;
      ScaleNorm2(v, k);
      var kl := k * len;
      assert kl == speed;
      var kk, ll := k * k, len * len;
      assert kk * ll == kl * kl;
    }
  }
}
