/** The per-agent bookkeeping of the flocking simulation (QuadTree/Boid.h):
    an agent (`Boid`) is a location, a velocity and a pending acceleration,
    all vectors of the same dimension; the flock (`Flock`) owns the agents
    and wraps their locations back into the square [-1, 1] x [-1, 1].
    Single-precision floats are modelled as exact reals. */
module Boids {

  datatype Result<T> = Ok(value: T) | Err(msg: string)

  /** The zero vector of dimension `n`. */
  function Zeros(n: nat): (r: seq<real>)
    ensures |r| == n && forall i :: 0 <= i < n ==> r[i] == 0.0
  {
    if n == 0 then [] else Zeros(n - 1) + [0.0]
  }

  /** Component-wise sum of two vectors of the same dimension. */
  function Add(u: seq<real>, v: seq<real>): (r: seq<real>)
    requires |u| == |v|
    ensures |r| == |u|
  {
    if u == [] then [] else Add(u[..|u| - 1], v[..|v| - 1]) + [u[|u| - 1] + v[|v| - 1]]
  }

  lemma {:induction false} AddAt(u: seq<real>, v: seq<real>, i: nat)
    requires |u| == |v| && i < |u|
    ensures Add(u, v)[i] == u[i] + v[i]
    decreases |u|
  {
    if i < |u| - 1 {
      AddAt(u[..|u| - 1], v[..|v| - 1], i);
    }
  }

  /** `Add` is the component-wise sum. */
  lemma AddPointwise(u: seq<real>, v: seq<real>, r: seq<real>)
    requires |u| == |v| == |r|
    requires forall k :: 0 <= k < |r| ==> r[k] == u[k] + v[k]
    ensures r == Add(u, v)
  {
    forall k | 0 <= k < |r|
      ensures r[k] == Add(u, v)[k]
    {
      AddAt(u, v, k);
    }
  }

  /** Adding the zero vector changes nothing. */
  lemma {:induction false} AddZeros(u: seq<real>)
    ensures Add(u, Zeros(|u|)) == u
  {
    if u != [] {
      var n := |u| - 1;
      assert Zeros(|u|)[..n] == Zeros(n);
      AddZeros(u[..n]);
      assert u == u[..n] + [u[n]];
    }
  }

  class Boid {
    var location: seq<real>
    var velocity: seq<real>
    var acceleration: seq<real>

    /** The three vectors share one dimension. */
    predicate Valid()
      reads this
    {
      |velocity| == |location| && |acceleration| == |location|
    }

    /** An agent at rest: velocity and acceleration start at zero. */
    constructor At(location: seq<real>)
      ensures Valid()
      ensures this.location == location && velocity == Zeros(|location|) && acceleration == Zeros(|location|)
    {
      this.location := location;
      velocity := Zeros(|location|);
      acceleration := Zeros(|location|);
    }

    /** An agent with an initial velocity, which must have the dimension
        of the location; acceleration starts at zero. */
    constructor (location: seq<real>, velocity: seq<real>)
      requires |location| == |velocity|
      ensures Valid()
      ensures this.location == location && this.velocity == velocity && acceleration == Zeros(|location|)
    {
      this.location := location;
      this.velocity := velocity;
      acceleration := Zeros(|location|);
    }

    /** Folds the pending acceleration into the velocity and clears it;
        the location does not move. */
    method EmptyAcceleration()
      requires Valid()
      modifies this`velocity, this`acceleration
      ensures Valid()
      ensures velocity == Add(old(velocity), old(acceleration))
      ensures acceleration == Zeros(|velocity|)
    {
      ghost var v0, a0 := velocity, acceleration;
      var i := 0;
      while i < |velocity|
        invariant 0 <= i <= |velocity| == |v0| && |acceleration| == |a0|
        invariant forall k :: 0 <= k < i ==> velocity[k] == v0[k] + a0[k] && acceleration[k] == 0.0
        invariant forall k :: i <= k < |velocity| ==> velocity[k] == v0[k] && acceleration[k] == a0[k]
      {
        velocity := velocity[i := velocity[i] + acceleration[i]];
        acceleration := acceleration[i := 0.0];
        i := i + 1;
      }
      AddPointwise(v0, a0, velocity);
    }

    /** Wraps every coordinate of the location once (see `Wrap`). */
    method MirrorLocation()
      modifies this`location
      ensures |location| == |old(location)|
      ensures forall i :: 0 <= i < |location| ==> location[i] == Wrap(old(location)[i])
    {
      var i := 0;
      while i < |location|
        invariant 0 <= i <= |location| == |old(location)|
        invariant forall k :: 0 <= k < i ==> location[k] == Wrap(old(location)[k])
        invariant forall k :: i <= k < |location| ==> location[k] == old(location)[k]
      {
        if location[i] > 1.0 {
          location := location[i := location[i] - 2.0];
        } else if location[i] < -1.0 {
          location := location[i := location[i] + 2.0];
        }
        i := i + 1;
      }
    }
  }

  /** The agent factory behind the two-vector constructor, which throws
      when the dimensions differ. */
  method NewBoid(location: seq<real>, velocity: seq<real>) returns (r: Result<Boid>)
    ensures r.Err? <==> |location| != |velocity|
    ensures r.Ok? ==>
      fresh(r.value) && r.value.Valid() && r.value.location == location &&
      r.value.velocity == velocity && r.value.acceleration == Zeros(|location|)
  {
    if |location| != |velocity| {
      return Err("Incorrect dimensionality between location and velocity");
    }
    var b := new Boid(location, velocity);
    r := Ok(b);
  }

  /** One wrap of a coordinate by the width of the square: above 1 it moves
      down by 2, below -1 up by 2, and otherwise (1 and -1 included) it
      stays. A coordinate that left the square by at most its width comes
      back into it, and the result is always the same point of the torus. */
  function Wrap(v: real): (w: real)
    ensures -1.0 <= v <= 1.0 ==> w == v
    ensures -3.0 <= v <= 3.0 ==> -1.0 <= w <= 1.0
    ensures w == v - 2.0 || w == v || w == v + 2.0
    ensures v > 1.0 ==> w < v
    ensures v < -1.0 ==> w > v
  {
    if v > 1.0 then v - 2.0 else if v < -1.0 then v + 2.0 else v
  }

  function Sq(d: real): real
  {
    d * d
  }

  /** A square is never negative, and positive unless its root is zero. */
  lemma SqFacts(d: real)
    ensures Sq(d) >= 0.0
    ensures d != 0.0 ==> Sq(d) > 0.0
  {
    if d > 0.0 {
      SqPositive(d);
    } else if d < 0.0 {
      assert Sq(d) == Sq(-d);
      SqPositive(-d);
    } else {
      assert Sq(d) == 0.0;
    }
  }

  lemma SqPositive(p: real)
    requires p > 0.0
    ensures Sq(p) > 0.0
  {
    calc {
      Sq(p);
      p * p;
    >
      0.0;
    }
  }

  /** The sum over the components of the squared differences of two
      vectors of the same dimension. */
  function SumSquares(a: seq<real>, b: seq<real>): real
    requires |a| == |b|
  {
    if a == [] then 0.0
    else
      var n := |a| - 1;
      SumSquares(a[..n], b[..n]) + Sq(a[n] - b[n])
  }

  lemma {:induction false} SumSquaresNonNegative(a: seq<real>, b: seq<real>)
    requires |a| == |b|
    ensures SumSquares(a, b) >= 0.0
  {
    if a != [] {
      var n := |a| - 1;
      SumSquaresNonNegative(a[..n], b[..n]);
      SqFacts(a[n] - b[n]);
    }
  }

  /** The squared distance vanishes exactly between equal vectors. */
  lemma {:induction false} SumSquaresZero(a: seq<real>, b: seq<real>)
    requires |a| == |b|
    ensures a == b ==> SumSquares(a, b) == 0.0
    ensures a != b ==> SumSquares(a, b) > 0.0
  {
    if a != [] {
      var n := |a| - 1;
      SumSquaresZero(a[..n], b[..n]);
      SumSquaresNonNegative(a[..n], b[..n]);
      SqFacts(a[n] - b[n]);
      if a == b {
        assert a[..n] == b[..n];
      } else if a[..n] == b[..n] {
        assert a == a[..n] + [a[n]] && b == b[..n] + [b[n]];
      }
    }
  }

  /** The squared distance does not depend on the order of its arguments. */
  lemma {:induction false} SumSquaresSymmetric(a: seq<real>, b: seq<real>)
    requires |a| == |b|
    ensures SumSquares(a, b) == SumSquares(b, a)
  {
    if a != [] {
      var n := |a| - 1;
      SumSquaresSymmetric(a[..n], b[..n]);
      assert Sq(a[n] - b[n]) == Sq(b[n] - a[n]);
    }
  }

  class Flock {
    var boids: seq<Boid>

    /** A flock owns its agents by value: no agent appears twice. */
    predicate Valid()
      reads this
    {
      forall i, j :: 0 <= i < j < |boids| ==> boids[i] != boids[j]
    }

    constructor ()
      ensures boids == [] && Valid()
    {
      boids := [];
    }

    /** Wraps every agent's location back into the square; velocities,
        accelerations and the agents themselves are untouched. */
    method Mirror()
      requires Valid()
      modifies set i | 0 <= i < |boids| :: boids[i]`location
      ensures forall i :: 0 <= i < |boids| ==>
        |boids[i].location| == |old(boids[i].location)| &&
        forall k :: 0 <= k < |boids[i].location| ==> boids[i].location[k] == Wrap(old(boids[i].location)[k])
    {
      var n := 0;
      while n < |boids|
        invariant 0 <= n <= |boids|
        invariant forall i :: 0 <= i < n ==>
          |boids[i].location| == |old(boids[i].location)| &&
          forall k :: 0 <= k < |boids[i].location| ==> boids[i].location[k] == Wrap(old(boids[i].location)[k])
        invariant forall i :: n <= i < |boids| ==> boids[i].location == old(boids[i].location)
      {
        boids[n].MirrorLocation();
        n := n + 1;
      }
    }

    /** The squared Euclidean distance of two vectors; vectors of different
        dimensions are an error. */
    method SquaredDistance(a: seq<real>, b: seq<real>) returns (r: Result<real>)
      ensures r.Err? <==> |a| != |b|
      ensures r.Ok? ==> r.value == SumSquares(a, b) && r.value >= 0.0 && (r.value == 0.0 <==> a == b)
    {
      if |a| != |b| {
        return Err("Unequal Dimensions between two Boids!");
      }
      var sum := 0.0;
      var i := 0;
      while i < |a|
        invariant 0 <= i <= |a|
        invariant sum == SumSquares(a[..i], b[..i])
      {
        assert a[..i + 1][..i] == a[..i] && b[..i + 1][..i] == b[..i];
        sum := sum + (a[i] - b[i]) * (a[i] - b[i]);
        i := i + 1;
      }
      assert a[..i] == a && b[..i] == b;
      SumSquaresNonNegative(a, b);
      SumSquaresZero(a, b);
      r := Ok(sum);
    }
  }
}
