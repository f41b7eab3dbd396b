/** The player: a point-like body steered by a thrust impulse along an
    absolute heading, speed-capped and clamped inside the arena
    (aster.js, class Player). */
module Players {
  import opened Numerics

  /** Values the constructor gives every player. */
  const DefaultVelMax: real := 1.0
  const DefaultRadius: real := 8.0

  datatype Player = Player(
    x: real, y: real,
    velX: real, velY: real,
    velMax: real,
    r: real,
    width: real, height: real)

  /** What stateAfter returns: next position and next velocity. */
  datatype PlayerState = PlayerState(x: real, y: real, velX: real, velY: real)

  /** The constructor: a resting player a third of the way into the arena. */
  function New(width: real, height: real): (p: Player)
    ensures p.x == width / 3.0 && p.y == height / 3.0
    ensures p.velX == 0.0 && p.velY == 0.0
    ensures p.velMax == 1.0 && p.r == 8.0
    ensures p.width == width && p.height == height
  {
    Player(width / 3.0, height / 3.0, 0.0, 0.0, DefaultVelMax, DefaultRadius, width, height)
  }

  /** clone builds a fresh player of the same arena size and copies position
      and velocity; speed cap and radius come from the constructor, so the
      copy equals the original exactly when those are still the defaults. */
  function Clone(p: Player): (c: Player)
    ensures c.x == p.x && c.y == p.y && c.velX == p.velX && c.velY == p.velY
    ensures c.width == p.width && c.height == p.height
    ensures c.velMax == DefaultVelMax && c.r == DefaultRadius
    ensures c == p <==> p.velMax == DefaultVelMax && p.r == DefaultRadius
  {
    New(p.width, p.height).(x := p.x, y := p.y, velX := p.velX, velY := p.velY)
  }

  /** The velocity after a thrust impulse of the given strength along heading
      theta, before the speed cap. */
  function Thrusted(m: Maths, p: Player, dt: real, theta: real, thrust: real): Vec
  {
    Vec(p.velX + m.cos(theta) * thrust * dt, p.velY + m.sin(theta) * thrust * dt)
  }

  /** The speed cap: a velocity within the cap is returned as it is; a faster
      one is rescaled, along the same direction, to exactly the cap. */
  function CapSpeed(sqrt: real -> real, u: Vec, velMax: real): (v: Vec)
    requires ValidSqrt(sqrt)
    ensures SqNorm(v) <= velMax * velMax
    ensures SqNorm(u) <= velMax * velMax ==> v == u
    ensures SqNorm(u) > velMax * velMax ==>
      SqNorm(v) == velMax * velMax && Cross(u, v) == 0.0 && (velMax >= 0.0 ==> Dot(u, v) >= 0.0)
  {
    var magSq := SqNorm(u);
    if magSq > velMax * velMax then
      Rescale(u, sqrt(magSq), velMax)
    else
      u
  }

  /** The rescaling branch of the cap: each component divided by the
      magnitude and multiplied by the cap. */
  function Rescale(u: Vec, mag: real, velMax: real): (v: Vec)
    requires mag > 0.0 && SqNorm(u) > 0.0 && mag * mag == SqNorm(u)
    ensures SqNorm(v) == velMax * velMax
    ensures Cross(u, v) == 0.0
    ensures velMax >= 0.0 ==> Dot(u, v) >= 0.0
  {
    RescaledNorm(u, mag, velMax);
    Vec(u.x / mag * velMax, u.y / mag * velMax)
  }

  /** Dividing by the magnitude and multiplying by the cap yields a vector of
      squared length cap squared, parallel to and pointing with the input. */
  lemma RescaledNorm(u: Vec, mag: real, velMax: real)
    requires mag > 0.0 && SqNorm(u) > 0.0 && mag * mag == SqNorm(u)
    ensures SqNorm(Vec(u.x / mag * velMax, u.y / mag * velMax)) == velMax * velMax
    ensures Cross(u, Vec(u.x / mag * velMax, u.y / mag * velMax)) == 0.0
    ensures velMax >= 0.0 ==> Dot(u, Vec(u.x / mag * velMax, u.y / mag * velMax)) >= 0.0
  {
    var a := u.x / mag;
    var b := u.y / mag;
    UnitAfterDivide(u.x, u.y, mag);
    assert (a * velMax) * (a * velMax) + (b * velMax) * (b * velMax) == (a * a + b * b) * (velMax * velMax);
    DivTimes(u.x, mag);
    DivTimes(u.y, mag);
    assert Dot(u, Vec(a * velMax, b * velMax)) == (a * a + b * b) * mag * velMax;
  }

  /** Dividing a nonzero vector by its own length gives a unit vector. */
  lemma UnitAfterDivide(ux: real, uy: real, mag: real)
    requires mag > 0.0 && ux * ux + uy * uy > 0.0 && mag * mag == ux * ux + uy * uy
    ensures (ux / mag) * (ux / mag) + (uy / mag) * (uy / mag) == 1.0
  {
    DivTimes(ux, mag);
    DivTimes(uy, mag);
    assert ux * ux + uy * uy == ((ux / mag) * (ux / mag) + (uy / mag) * (uy / mag)) * (mag * mag);
    ZeroFactor((ux / mag) * (ux / mag) + (uy / mag) * (uy / mag) - 1.0, mag * mag);
  }

  lemma DivTimes(a: real, s: real)
    requires s != 0.0
    ensures (a / s) * s == a
  {
  }

  lemma ZeroFactor(x: real, y: real)
    requires y > 0.0
    requires x * y == 0.0
    ensures x == 0.0
  {
  }

  /** Clamps a coordinate into [lo, hi]: below lo gives lo, otherwise above hi
      gives hi (so when lo > hi, a value above hi but not below lo gives hi). */
  function Clamp(v: real, lo: real, hi: real): (c: real)
    ensures lo <= hi ==> lo <= c <= hi
    ensures lo <= v <= hi ==> c == v
    ensures v < lo ==> c == lo
    ensures lo <= v && hi < v ==> c == hi
  {
    if v < lo then lo else if v > hi then hi else v
  }

  /** The state after dt time units under the given control. The new speed
      never exceeds the cap; the position is held inside [r, width - r] x
      [r, height - r] whenever the arena is at least one diameter wide, and
      is moved by exactly the new velocity when that stays inside; a move
      past a wall ends on that wall, the low wall checked first. The
      velocity is not zeroed at a wall. */
  function StateAfter(m: Maths, p: Player, dt: real, theta: real, thrust: real): (s: PlayerState)
    requires ValidSqrt(m.sqrt)
    ensures var u := Thrusted(m, p, dt, theta, thrust);
      && SqNorm(Vec(s.velX, s.velY)) <= p.velMax * p.velMax
      && (SqNorm(u) <= p.velMax * p.velMax ==> Vec(s.velX, s.velY) == u)
      && (SqNorm(u) > p.velMax * p.velMax ==> SqNorm(Vec(s.velX, s.velY)) == p.velMax * p.velMax)
    ensures 2.0 * p.r <= p.width ==> p.r <= s.x <= p.width - p.r
    ensures 2.0 * p.r <= p.height ==> p.r <= s.y <= p.height - p.r
    ensures p.r <= Moved(p.x, s.velX, dt) <= p.width - p.r ==> s.x == Moved(p.x, s.velX, dt)
    ensures p.r <= Moved(p.y, s.velY, dt) <= p.height - p.r ==> s.y == Moved(p.y, s.velY, dt)
    ensures Moved(p.x, s.velX, dt) < p.r ==> s.x == p.r
    ensures Moved(p.y, s.velY, dt) < p.r ==> s.y == p.r
    ensures p.r <= Moved(p.x, s.velX, dt) && p.width - p.r < Moved(p.x, s.velX, dt) ==> s.x == p.width - p.r
    ensures p.r <= Moved(p.y, s.velY, dt) && p.height - p.r < Moved(p.y, s.velY, dt) ==> s.y == p.height - p.r
  {
    var v := CapSpeed(m.sqrt, Thrusted(m, p, dt, theta, thrust), p.velMax);
    var newX := Clamp(Moved(p.x, v.x, dt), p.r, p.width - p.r);
    var newY := Clamp(Moved(p.y, v.y, dt), p.r, p.height - p.r);
    PlayerState(newX, newY, v.x, v.y)
  }

  /** step commits exactly the stateAfter result; speed cap, radius and arena
      size are left alone. */
  function Step(m: Maths, p: Player, dt: real, theta: real, thrust: real): (q: Player)
    requires ValidSqrt(m.sqrt)
    ensures var s := StateAfter(m, p, dt, theta, thrust);
      q.x == s.x && q.y == s.y && q.velX == s.velX && q.velY == s.velY
    ensures q.velMax == p.velMax && q.r == p.r && q.width == p.width && q.height == p.height
  {
    var s := StateAfter(m, p, dt, theta, thrust);
    p.(x := s.x, y := s.y, velX := s.velX, velY := s.velY)
  }
}
