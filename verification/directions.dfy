/** The four directions the snake can move in, their axes, and one step in each. */
module Directions {
  import opened Geometry

  datatype Direction = Up | Down | Left | Right

  /** The axis a direction moves along: up/down change `y`, left/right change `x`. */
  datatype Axis = X | Y

  function AxisOf(d: Direction): (a: Axis)
    ensures forall c: Cell :: a == X ==> Step(c, d).y == c.y && Step(c, d).x != c.x
    ensures forall c: Cell :: a == Y ==> Step(c, d).x == c.x && Step(c, d).y != c.y
  {
    match d
    case Up | Down => Y
    case Left | Right => X
  }

  /** The cell one step from `c` in direction `d`; `y` grows downwards. */
  function Step(c: Cell, d: Direction): (r: Cell)
    ensures Adjacent(c, r)
  {
    match d
    case Up => c.(y := c.y - 1)
    case Down => c.(y := c.y + 1)
    case Left => c.(x := c.x - 1)
    case Right => c.(x := c.x + 1)
  }

  /** The direction that undoes `d`: the other one on the same axis. */
  function Reverse(d: Direction): (r: Direction)
    ensures AxisOf(r) == AxisOf(d) && r != d
    ensures forall c :: Step(Step(c, d), r) == c
  {
    match d
    case Up => Down
    case Down => Up
    case Left => Right
    case Right => Left
  }

  /** Two cells that share a side. */
  predicate Adjacent(a: Cell, b: Cell)
  {
    Abs(a.x - b.x) + Abs(a.y - b.y) == 1
  }

  function Abs(n: int): int
  {
    if n < 0 then -n else n
  }
}
