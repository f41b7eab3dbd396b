/** Numeric vocabulary shared by the planning core: plane vectors, the value
    of pi, and the platform's transcendental functions, which the model does
    not compute but receives from its caller. */
module Numerics {

  /** Math.PI as JavaScript prints it. */
  const Pi: real := 3.141592653589793

  datatype Vec = Vec(x: real, y: real)

  function SqNorm(v: Vec): real
  {
    v.x * v.x + v.y * v.y
  }

  function Dot(u: Vec, v: Vec): real
  {
    u.x * v.x + u.y * v.y
  }

  /** The cross product; zero exactly when the two vectors are parallel. */
  function Cross(u: Vec, v: Vec): real
  {
    u.x * v.y - u.y * v.x
  }

  function Sq(v: real): real
  {
    v * v
  }

  /** A square is never negative, and is zero only for zero. */
  lemma SqPositive(v: real)
    ensures Sq(v) >= 0.0
    ensures Sq(v) == 0.0 <==> v == 0.0
  {
    if v == 0.0 {
      assert Sq(v) == 0.0 * 0.0;
    } else {
      NonzeroSquare(v);
    }
  }

  lemma NonzeroSquare(v: real)
    requires v != 0.0
    ensures Sq(v) > 0.0
  {
    if v > 0.0 {
      PositiveSquare(v);
    } else {
      calc {
        Sq(v);
      ==
        (-v) * (-v);
      ==
        Sq(-v);
      > { PositiveSquare(-v); }
        0.0;
      }
    }
  }

  lemma PositiveSquare(u: real)
    requires u > 0.0
    ensures Sq(u) > 0.0
  {
    calc {
      Sq(u);
    ==
      u * u;
    >
      0.0;
    }
  }

  /** A coordinate after moving at the given speed for dt time units. */
  function Moved(pos: real, vel: real, dt: real): real
  {
    pos + vel * dt
  }

  /** Squared Euclidean distance between two points. */
  function SqDist(px: real, py: real, qx: real, qy: real): real
  {
    Sq(px - qx) + Sq(py - qy)
  }

  /** Math.cos, Math.sin and Math.sqrt, supplied by the caller. Nothing is
      assumed of cos and sin; sqrt is constrained by ValidSqrt. */
  datatype Maths = Maths(cos: real -> real, sin: real -> real, sqrt: real -> real)

  /** The only property of the square root the planner relies on: on a
      positive argument it is positive and squares back to its argument. */
  ghost predicate ValidSqrt(sqrt: real -> real)
  {
    forall m: real :: m > 0.0 ==> sqrt(m) > 0.0 && sqrt(m) * sqrt(m) == m
  }

  /** A stream of Math.random draws: the k-th call returns rand(k), in [0, 1). */
  ghost predicate UnitDraws(rand: nat -> real)
  {
    forall k: nat :: 0.0 <= rand(k) < 1.0
  }
}
