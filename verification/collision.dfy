/** The collision oracle: is the player clear of every asteroid?
    (aster.js, function alive). */
module Collision {
  import opened Numerics
  import opened Players
  import opened Asteroids

  /** An asteroid strikes the player when the player's centre lies strictly
      inside the asteroid's circle. Only the asteroid's radius counts: the
      player is a point here. */
  predicate Strikes(p: Player, a: Asteroid)
  {
    Sq(a.r) > SqDist(p.x, p.y, a.x, a.y)
  }

  /** The loop with its early return: the first striking asteroid ends the
      scan with false. The result is true exactly when every asteroid is at
      squared distance at least its radius squared, so touching the rim is
      survivable, an empty field is always survivable, and the asteroids'
      own liveness flags play no part. */
  function Alive(p: Player, asteroids: seq<Asteroid>): (b: bool)
    ensures b <==> forall i :: 0 <= i < |asteroids| ==>
      SqDist(p.x, p.y, asteroids[i].x, asteroids[i].y) >= Sq(asteroids[i].r)
    decreases |asteroids|
  {
    if |asteroids| == 0 then true
    else if Strikes(p, asteroids[0]) then false
    else Alive(p, asteroids[1..])
  }

  /** The oracle looks only at the player's position and at each asteroid's
      position and radius: two fields that agree on those get the same verdict. */
  lemma {:induction false} AliveSeesOnlyPositions(p: Player, q: Player, xs: seq<Asteroid>, ys: seq<Asteroid>)
    requires p.x == q.x && p.y == q.y && |xs| == |ys|
    requires forall i :: 0 <= i < |xs| ==> xs[i].x == ys[i].x && xs[i].y == ys[i].y && xs[i].r == ys[i].r
    ensures Alive(p, xs) == Alive(q, ys)
    decreases |xs|
  {
    if |xs| > 0 {
      AliveSeesOnlyPositions(p, q, xs[1..], ys[1..]);
    }
  }
}
