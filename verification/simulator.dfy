/** The trajectory simulator: replays one candidate input sequence on copies
    of the world, with a look-ahead step that grows by a quarter time unit per
    step, and stops at the first collision (aster.js, function simulate). */
module Simulator {
  import opened Numerics
  import opened Players
  import opened Asteroids
  import opened Collision

  /** The arena size the score is measured against (the page's global
      width and height, not the player's own fields). */
  const ArenaWidth: real := 512.0
  const ArenaHeight: real := 512.0

  /** One step's control: thrust strength and absolute heading. */
  datatype Input = Input(thrust: real, theta: real)

  datatype Point = Point(x: real, y: real)

  datatype World = World(player: Player, asteroids: seq<Asteroid>)

  /** What the replay loop produces: whether it ran to the end, and the
      world after each step it took. */
  datatype Rollout = Rollout(survived: bool, visited: seq<World>)

  /** The record simulate returns. */
  datatype SimResult = SimResult(
    alive: bool,
    x: real, y: real,
    thrust: real, theta: real,
    steps: seq<Point>,
    score: real)

  /** The time delta of the k-th look-ahead step (counting from 0): it starts
      at 1 and grows by 0.25 per step. */
  function Dt(k: nat): real
  {
    1.0 + 0.25 * k as real
  }

  function StepAll(asteroids: seq<Asteroid>, dt: real): seq<Asteroid>
  {
    seq(|asteroids|, i requires 0 <= i < |asteroids| => Asteroids.Step(asteroids[i], dt))
  }

  function CloneAll(asteroids: seq<Asteroid>): seq<Asteroid>
  {
    seq(|asteroids|, i requires 0 <= i < |asteroids| => Asteroids.Clone(asteroids[i]))
  }

  /** The private copy of the world a rollout works on. */
  function Start(player: Player, asteroids: seq<Asteroid>): World
  {
    World(Players.Clone(player), CloneAll(asteroids))
  }

  /** One simulation step: the player takes the input, every asteroid moves. */
  function StepWorld(m: Maths, w: World, input: Input, dt: real): World
    requires ValidSqrt(m.sqrt)
  {
    World(Players.Step(m, w.player, dt, input.theta, input.thrust), StepAll(w.asteroids, dt))
  }

  /** The world-step function as a value, so that the replay below can be
      reasoned about once for any step rule. */
  function Stepper(m: Maths): (step: (World, Input, real) --> World)
    ensures ValidSqrt(m.sqrt) ==> Total(step)
  {
    (w: World, input: Input, dt: real) requires ValidSqrt(m.sqrt) => StepWorld(m, w, input, dt)
  }

  ghost predicate Total(step: (World, Input, real) --> World)
  {
    forall w, input, dt :: step.requires(w, input, dt)
  }

  /** The reference trajectory: the world after the first n inputs, applied
      with no collision checks at all. */
  function Trajectory(step: (World, Input, real) --> World, w0: World, inputs: seq<Input>, n: nat): World
    requires Total(step)
    requires n <= |inputs|
    decreases n
  {
    if n == 0 then w0
    else step(Trajectory(step, w0, inputs, n - 1), inputs[n - 1], Dt(n - 1))
  }

  /** The reference trajectory of the player-and-asteroids step. */
  function WorldAfter(m: Maths, w0: World, inputs: seq<Input>, n: nat): World
    requires ValidSqrt(m.sqrt)
    requires n <= |inputs|
  {
    Trajectory(Stepper(m), w0, inputs, n)
  }

  /** Each world of the reference trajectory is one step on from the one before. */
  lemma WorldAfterStep(m: Maths, w0: World, inputs: seq<Input>, n: nat)
    requires ValidSqrt(m.sqrt)
    requires n < |inputs|
    ensures WorldAfter(m, w0, inputs, n + 1) == StepWorld(m, WorldAfter(m, w0, inputs, n), inputs[n], Dt(n))
  {
  }

  /** Along any trajectory the player keeps its speed cap, radius and arena
      size, never moves faster than the cap after a step, and, in an arena at
      least one diameter across, stays inside the wall-clamped box. */
  lemma {:induction false} PlayerStaysInArena(m: Maths, w0: World, inputs: seq<Input>, n: nat)
    requires ValidSqrt(m.sqrt)
    requires n <= |inputs|
    ensures var p0, p := w0.player, WorldAfter(m, w0, inputs, n).player;
      p.velMax == p0.velMax && p.r == p0.r && p.width == p0.width && p.height == p0.height
    ensures var p0, p := w0.player, WorldAfter(m, w0, inputs, n).player;
      n >= 1 ==> SqNorm(Vec(p.velX, p.velY)) <= p0.velMax * p0.velMax
    ensures var p0, p := w0.player, WorldAfter(m, w0, inputs, n).player;
      n >= 1 && 2.0 * p0.r <= p0.width && 2.0 * p0.r <= p0.height ==>
        p0.r <= p.x <= p0.width - p0.r && p0.r <= p.y <= p0.height - p0.r
    decreases n
  {
    if n > 0 {
      PlayerStaysInArena(m, w0, inputs, n - 1);
      WorldAfterStep(m, w0, inputs, n - 1);
    }
  }

  /** Along any trajectory the asteroid field keeps its size, and an
      asteroid flagged alive after n steps was flagged alive after every
      earlier step: once dead it stays dead. Velocity and radius are kept. */
  lemma {:induction false} AsteroidsStayDead(m: Maths, w0: World, inputs: seq<Input>, n: nat)
    requires ValidSqrt(m.sqrt)
    requires n <= |inputs|
    ensures |WorldAfter(m, w0, inputs, n).asteroids| == |w0.asteroids|
    ensures forall j, i :: 0 <= j <= n && 0 <= i < |w0.asteroids| && WorldAfter(m, w0, inputs, n).asteroids[i].alive ==>
      |WorldAfter(m, w0, inputs, j).asteroids| == |w0.asteroids| && WorldAfter(m, w0, inputs, j).asteroids[i].alive
    ensures forall i :: 0 <= i < |w0.asteroids| ==>
      var a, b := w0.asteroids[i], WorldAfter(m, w0, inputs, n).asteroids[i];
      b.velX == a.velX && b.velY == a.velY && b.r == a.r
    decreases n
  {
    if n > 0 {
      AsteroidsStayDead(m, w0, inputs, n - 1);
      OneStepKeepsDead(m, w0, inputs, n - 1);
      var cur := WorldAfter(m, w0, inputs, n).asteroids;
      forall j, i | 0 <= j <= n && 0 <= i < |w0.asteroids| && cur[i].alive
        ensures |WorldAfter(m, w0, inputs, j).asteroids| == |w0.asteroids| && WorldAfter(m, w0, inputs, j).asteroids[i].alive
      {
        if j < n {
          assert WorldAfter(m, w0, inputs, n - 1).asteroids[i].alive;
        }
      }
    }
  }

  /** One step of the trajectory moves every asteroid by Asteroids.Step. */
  lemma OneStepKeepsDead(m: Maths, w0: World, inputs: seq<Input>, n: nat)
    requires ValidSqrt(m.sqrt)
    requires n < |inputs|
    ensures var prev, cur := WorldAfter(m, w0, inputs, n).asteroids, WorldAfter(m, w0, inputs, n + 1).asteroids;
      && |cur| == |prev|
      && forall i :: 0 <= i < |prev| ==>
           && (cur[i].alive ==> prev[i].alive)
           && cur[i].velX == prev[i].velX && cur[i].velY == prev[i].velY && cur[i].r == prev[i].r
  {
    WorldAfterStep(m, w0, inputs, n);
  }

  predicate WorldAlive(w: World)
  {
    Alive(w.player, w.asteroids)
  }

  function PositionOf(w: World): Point
  {
    Point(w.player.x, w.player.y)
  }

  /** The replay loop from step i on, in world w (the world after the first
      i inputs). Each step moves the world, records it and then consults the
      collision oracle; a collision ends the replay at once, so no later input
      is looked at. Measured against the reference trajectory: the recorded
      worlds are the reference ones, every world strictly before the last
      recorded one is collision-free, and the replay either runs to the end
      collision-free or stops exactly at the first colliding world. */
  function Replay(step: (World, Input, real) --> World, w0: World, inputs: seq<Input>, i: nat, w: World): (o: Rollout)
    requires Total(step)
    requires i <= |inputs|
    requires w == Trajectory(step, w0, inputs, i)
    ensures Explains(step, w0, inputs, i, o)
    decreases |inputs| - i
  {
    if i == |inputs| then
      Rollout(true, [])
    else
      var next := step(w, inputs[i], Dt(i));
      assert next == Trajectory(step, w0, inputs, i + 1);
      if !WorldAlive(next) then
        Rollout(false, [next])
      else
        var rest := Replay(step, w0, inputs, i + 1, next);
        ReplayExtends(step, w0, inputs, i, next, rest);
        Rollout(rest.survived, [next] + rest.visited)
  }

  /** What a replay from step i on promises of its rollout o, measured
      against the reference trajectory: at most one recorded world per
      remaining input and at least one if any remain; the recorded worlds
      are the reference ones; every world strictly before the last recorded
      one is collision-free; a surviving rollout recorded every remaining
      step and met no collision; a failed one stops exactly at a colliding
      world. */
  ghost predicate Explains(step: (World, Input, real) --> World, w0: World, inputs: seq<Input>, i: nat, o: Rollout)
    requires Total(step)
    requires i <= |inputs|
  {
    && |o.visited| <= |inputs| - i
    && (i < |inputs| ==> 1 <= |o.visited|)
    && (forall j :: 0 <= j < |o.visited| ==> o.visited[j] == Trajectory(step, w0, inputs, i + j + 1))
    && (forall j :: i < j < i + |o.visited| ==> WorldAlive(Trajectory(step, w0, inputs, j)))
    && (o.survived ==> |o.visited| == |inputs| - i)
    && (o.survived ==> forall j :: i < j <= |inputs| ==> WorldAlive(Trajectory(step, w0, inputs, j)))
    && (!o.survived ==> !WorldAlive(Trajectory(step, w0, inputs, i + |o.visited|)))
  }

  /** A collision-free step followed by a rollout from step i + 1 is a
      rollout from step i. */
  lemma ReplayExtends(step: (World, Input, real) --> World, w0: World, inputs: seq<Input>, i: nat, next: World, rest: Rollout)
    requires Total(step)
    requires i < |inputs|
    requires next == Trajectory(step, w0, inputs, i + 1) && WorldAlive(next)
    requires Explains(step, w0, inputs, i + 1, rest)
    ensures Explains(step, w0, inputs, i, Rollout(rest.survived, [next] + rest.visited))
  {
    var v := [next] + rest.visited;
    assert forall j :: 1 <= j < |v| ==> v[j] == rest.visited[j - 1];
  }

  /** A replay from the start survives exactly when every world of the
      reference trajectory is collision-free. */
  lemma SurvivesIffAllAlive(step: (World, Input, real) --> World, w0: World, inputs: seq<Input>)
    requires Total(step)
    requires |inputs| > 0
    ensures Replay(step, w0, inputs, 0, w0).survived <==>
      forall j :: 1 <= j <= |inputs| ==> WorldAlive(Trajectory(step, w0, inputs, j))
  {
    var o := Replay(step, w0, inputs, 0, w0);
    if !o.survived {
      assert 1 <= |o.visited| <= |inputs|;
      assert !WorldAlive(Trajectory(step, w0, inputs, |o.visited|));
    }
  }

  /** The score of a surviving rollout: minus the squared distance of its
      final position from the centre of the arena. */
  function Score(x: real, y: real): (score: real)
    ensures score <= 0.0
    ensures score == 0.0 <==> x == ArenaWidth / 2.0 && y == ArenaHeight / 2.0
  {
    SqPositive(x - ArenaWidth / 2.0);
    SqPositive(y - ArenaHeight / 2.0);
    -Sq(x - ArenaWidth / 2.0) - Sq(y - ArenaHeight / 2.0)
  }

  /** simulate, for a non-empty input sequence and any world-step rule. It
      works on the copy Start(player, asteroids) and echoes the first input.
      The result is alive exactly when every world of the reference
      trajectory is collision-free; a live result has recorded one position
      per input and scores by distance from the centre, a dead one scores 0
      and has recorded up to and including the first colliding step, and no
      further. */
  function SimulateWith(step: (World, Input, real) --> World, player: Player, asteroids: seq<Asteroid>, inputs: seq<Input>): (r: SimResult)
    requires Total(step)
    requires |inputs| > 0
    ensures r.thrust == inputs[0].thrust && r.theta == inputs[0].theta
    ensures 1 <= |r.steps| <= |inputs|
    ensures r.alive <==> forall j :: 1 <= j <= |inputs| ==> WorldAlive(Trajectory(step, Start(player, asteroids), inputs, j))
    ensures r.alive ==> |r.steps| == |inputs|
    ensures !r.alive ==> !WorldAlive(Trajectory(step, Start(player, asteroids), inputs, |r.steps|))
    ensures forall j :: 1 <= j < |r.steps| ==> WorldAlive(Trajectory(step, Start(player, asteroids), inputs, j))
    ensures forall j :: 0 <= j < |r.steps| ==>
      r.steps[j] == PositionOf(Trajectory(step, Start(player, asteroids), inputs, j + 1))
    ensures Point(r.x, r.y) == r.steps[|r.steps| - 1]
    ensures r.alive ==> r.score == -SqDist(r.x, r.y, ArenaWidth / 2.0, ArenaHeight / 2.0)
    ensures !r.alive ==> r.score == 0.0
    ensures r.score <= 0.0
  {
    var w0 := Start(player, asteroids);
    var o := Replay(step, w0, inputs, 0, w0);
    SurvivesIffAllAlive(step, w0, inputs);
    var last := o.visited[|o.visited| - 1].player;
    SimResult(
      o.survived,
      last.x, last.y,
      inputs[0].thrust, inputs[0].theta,
      seq(|o.visited|, j requires 0 <= j < |o.visited| => PositionOf(o.visited[j])),
      if o.survived then Score(last.x, last.y) else 0.0)
  }

  /** simulate itself: the replay under the player-and-asteroids step. */
  function Simulate(m: Maths, player: Player, asteroids: seq<Asteroid>, inputs: seq<Input>): (r: SimResult)
    requires ValidSqrt(m.sqrt)
    requires |inputs| > 0
    ensures r.thrust == inputs[0].thrust && r.theta == inputs[0].theta
    ensures 1 <= |r.steps| <= |inputs|
    ensures r.alive ==> |r.steps| == |inputs|
    ensures r.score <= 0.0 && (!r.alive ==> r.score == 0.0)
  {
    SimulateWith(Stepper(m), player, asteroids, inputs)
  }

  /** With no asteroid on the field nothing can strike the player, so every
      rollout survives: the clones stay an empty field at every step. */
  lemma EmptyFieldSurvives(m: Maths, player: Player, inputs: seq<Input>)
    requires ValidSqrt(m.sqrt)
    requires |inputs| > 0
    ensures Simulate(m, player, [], inputs).alive
  {
    var w0 := Start(player, []);
    forall j | 1 <= j <= |inputs|
      ensures WorldAlive(Trajectory(Stepper(m), w0, inputs, j))
    {
      AsteroidsStayDead(m, w0, inputs, j);
    }
  }
}
