/**
 * The plain records the optimizer consumes (points, vehicles, parameter objects),
 * the Java exceptions it can raise, and the shapes used for the randomness and
 * the travel-time geometry that the model takes as inputs.
 */
module Beans {

  /** A delivery location; compared by value. */
  datatype Point = Point(x: real, y: real)

  /** Every route starts at the depot at the origin. */
  const Depot: Point := Point(0.0, 0.0)

  /** A vehicle: the exact number of points it must carry, and its speed. */
  datatype Vehicle = Vehicle(capacity: nat, speed: real)

  /**
   * The parameter objects handed to the optimizer: only the firefly variant
   * carries the four numbers it accepts; every other kind is refused.
   */
  datatype Params =
    | FireflyParams(alpha: int, beta: int, cycles: int, firefliesNumber: int)
    | OtherParams

  /** The unchecked Java exceptions the core can throw. */
  datatype JavaException = IllegalArgument | IndexOutOfBounds

  datatype Result<T> = Ok(value: T) | Err(error: JavaException)

  datatype Outcome = Pass | Fail(error: JavaException)

  /**
   * Travel time of one hop of a vehicle between two points (the source's
   * Euclidean distance divided by the vehicle's speed, left abstract).
   */
  type HopCost = (Vehicle, Point, Point) -> real

  ghost predicate NonNegative(hop: HopCost) {
    forall v, p, q :: hop(v, p, q) >= 0.0
  }

  /**
   * Raw random draws: the k-th value a random source yields. A call
   * `nextInt(bound)` that consumes draw k returns `rolls(k) % bound`, so every
   * value in [0, bound) is reachable and `bound` must be positive.
   */
  type Rolls = nat -> nat

  /** Java's `int` division, which truncates toward zero. */
  function JavaDiv(a: int, b: int): (q: int)
    requires b > 0
    ensures (q <= 0) == (a < b)
    ensures a >= 0 ==> q * b <= a < q * b + b
  {
    if a >= 0 then a / b else -((-a) / b)
  }
}
