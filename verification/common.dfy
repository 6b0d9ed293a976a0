/** Small shared vocabulary: optional values, results, 2D vectors over the
    reals, clamping, and the engine's update passes. */
module Common {

  /** A value that may be absent (an empty query result, a missing object). */
  datatype Option<+T> = None | Some(value: T)

  /** The outcome of an operation that can fault. */
  datatype Result<+T, +E> = Success(value: T) | Failure(error: E)

  /** A 2D vector in world units. Coordinates are reals; float rounding is not modelled. */
  datatype Vec = Vec(x: real, y: real)

  const Zero: Vec := Vec(0.0, 0.0)

  function Add(a: Vec, b: Vec): Vec
  {
    Vec(a.x + b.x, a.y + b.y)
  }

  function Sub(a: Vec, b: Vec): Vec
  {
    Vec(a.x - b.x, a.y - b.y)
  }

  /** Squared length, used wherever the source compares a length or a
      distance against a constant: both sides are non-negative, so comparing
      squares gives the same answer without a square root. */
  function LengthSq(v: Vec): real
  {
    v.x * v.x + v.y * v.y
  }

  function DistSq(a: Vec, b: Vec): real
  {
    LengthSq(Sub(a, b))
  }

  function Abs(x: real): real
  {
    if x < 0.0 then -x else x
  }

  function Min(a: int, b: int): int
  {
    if a <= b then a else b
  }

  /** Component clamp, as Vector2.Clamp does it for one axis. */
  function Clamp(v: real, lo: real, hi: real): (r: real)
    requires lo <= hi
    ensures lo <= r <= hi
    ensures lo <= v <= hi ==> r == v
    ensures v < lo ==> r == lo
    ensures hi < v ==> r == hi
  {
    if v < lo then lo else if hi < v then hi else v
  }

  /** The engine's update passes; an object only acts on some of them. */
  datatype Pass =
    | MainMenu
    | Credits
    | TutorialPause
    | GamePlay
    | GameOver
    | GameOverLoss
    | GamePlayPaused
    | TrialLimitReached
    | Quit
}
