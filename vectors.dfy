/** Two-dimensional vectors, treated as immutable values over the reals.
    Every other module of the engine consumes them. */
module Vectors {

  /** A point or displacement in the plane; single-precision floats become reals. */
  datatype Vector2 = Vector2(x: real, y: real)

  /** The zero vector, which is also what the parameterless constructor builds. */
  const Zero: Vector2 := Vector2(0.0, 0.0)

  /** Componentwise sum, the `+` the engine uses for translation. */
  function Add(a: Vector2, b: Vector2): Vector2
  {
    Vector2(a.x + b.x, a.y + b.y)
  }

  /** The square of the Euclidean distance between two points. */
  function SquaredDistance(a: Vector2, b: Vector2): (r: real)
    ensures r >= 0.0
    ensures a == b ==> r == 0.0
  {
    var dx := a.x - b.x;
    var dy := a.y - b.y;
    SquareNonNegative(dx);
    SquareNonNegative(dy);
    dx * dx + dy * dy
  }

  /** A square is never negative, and only zero squares to zero. */
  lemma SquareNonNegative(a: real)
    ensures a * a >= 0.0
    ensures a != 0.0 ==> a * a > 0.0
  {
    if a < 0.0 {
      var b := -a;
      assert b * b > 0.0;
      assert b * b == a * a;
    } else if a > 0.0 {
      assert a * a > 0.0;
    }
  }

  /** A product of two positive reals is positive. */
  lemma PositiveProduct(a: real, b: real)
    requires a > 0.0 && b > 0.0
    ensures a * b > 0.0
  {
  }

  /** A product of two non-negative reals is not negative. */
  lemma NonNegativeProduct(a: real, b: real)
    requires a >= 0.0 && b >= 0.0
    ensures a * b >= 0.0
  {
    if a > 0.0 && b > 0.0 {
      PositiveProduct(a, b);
    }
  }

  /** Swapping the two points does not change their distance. */
  lemma SquaredDistanceSymmetric(a: Vector2, b: Vector2)
    ensures SquaredDistance(a, b) == SquaredDistance(b, a)
  {
    assert (a.x - b.x) * (a.x - b.x) == (b.x - a.x) * (b.x - a.x);
    assert (a.y - b.y) * (a.y - b.y) == (b.y - a.y) * (b.y - a.y);
  }
}
