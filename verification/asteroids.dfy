/** Asteroids: circular obstacles moving in a straight line, marked dead once
    they leave the arena by more than their radius (aster.js, class Asteroid). */
module Asteroids {
  import opened Numerics

  datatype Asteroid = Asteroid(
    x: real, y: real,
    velX: real, velY: real,
    r: real,
    width: real, height: real,
    alive: bool)

  /** What stateAfter returns: the next position and the next liveness flag. */
  datatype AsteroidState = AsteroidState(x: real, y: real, alive: bool)

  /** The despawn box: the arena widened by the asteroid's radius on every side. */
  predicate InDespawnBox(a: Asteroid, x: real, y: real)
  {
    -a.r <= x <= a.width + a.r && -a.r <= y <= a.height + a.r
  }

  /** The constructor: every new asteroid starts alive. */
  function New(x: real, y: real, velX: real, velY: real, r: real, width: real, height: real): (a: Asteroid)
    ensures a.alive
    ensures a.x == x && a.y == y && a.velX == velX && a.velY == velY
    ensures a.r == r && a.width == width && a.height == height
  {
    Asteroid(x, y, velX, velY, r, width, height, true)
  }

  /** A copy built through the constructor, so the copy is alive whatever the
      original's flag says. */
  function Clone(a: Asteroid): (c: Asteroid)
    ensures c.alive
    ensures c.(alive := a.alive) == a
  {
    New(a.x, a.y, a.velX, a.velY, a.r, a.width, a.height)
  }

  /** The state after dt time units of straight-line motion. Each axis is
      checked on its own, and leaving the despawn box on either kills. */
  function StateAfter(a: Asteroid, dt: real): (s: AsteroidState)
    ensures s.x == Moved(a.x, a.velX, dt) && s.y == Moved(a.y, a.velY, dt)
    ensures s.alive <==> a.alive && InDespawnBox(a, s.x, s.y)
  {
    var newX := Moved(a.x, a.velX, dt);
    var newY := Moved(a.y, a.velY, dt);
    var aliveX :=
      if newX < -a.r then false
      else if newX > a.width + a.r then false
      else a.alive;
    var aliveXY :=
      if newY < -a.r then false
      else if newY > a.height + a.r then false
      else aliveX;
    AsteroidState(newX, newY, aliveXY)
  }

  /** step commits the result of stateAfter; velocity, radius and arena size
      are untouched, and a dead asteroid never comes back. */
  function Step(a: Asteroid, dt: real): (b: Asteroid)
    ensures b.x == StateAfter(a, dt).x && b.y == StateAfter(a, dt).y
    ensures b.alive == StateAfter(a, dt).alive
    ensures b.velX == a.velX && b.velY == a.velY && b.r == a.r
    ensures b.width == a.width && b.height == a.height
    ensures !a.alive ==> !b.alive
  {
    var s := StateAfter(a, dt);
    a.(x := s.x, y := s.y, alive := s.alive)
  }

  /** Stepping through a sequence of time deltas, one step per delta. */
  function StepMany(a: Asteroid, dts: seq<real>): Asteroid
    decreases |dts|
  {
    if |dts| == 0 then a else StepMany(Step(a, dts[0]), dts[1..])
  }

  /** However many steps are taken, over arbitrary time deltas, a dead
      asteroid stays dead (so one alive at the end was alive at the start),
      and its velocity and radius are kept. Arbitrary deltas cover the live
      world's dt of 1 per frame; the simulator's growing time steps (1, 1.25,
      1.5, ...) are covered by Simulator.AsteroidsStayDead. */
  lemma {:induction false} NeverRevives(a: Asteroid, dts: seq<real>)
    ensures StepMany(a, dts).alive ==> a.alive
    ensures StepMany(a, dts).velX == a.velX && StepMany(a, dts).velY == a.velY
    ensures StepMany(a, dts).r == a.r
    decreases |dts|
  {
    if |dts| > 0 {
      NeverRevives(Step(a, dts[0]), dts[1..]);
    }
  }
}
