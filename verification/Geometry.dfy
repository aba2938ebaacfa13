/** Small integer and planar notions that several parts share. */
module Geometry {

  function Min(a: int, b: int): int { if a < b then a else b }

  function Max(a: int, b: int): int { if a > b then a else b }

  function Abs(n: int): nat { if n < 0 then -n else n }

  datatype Rectangle = Rectangle(x: int, y: int, width: int, height: int)

  datatype Position = Position(x: real, y: real)

  /** From u at 0 to v at 1. */
  function Mid(u: real, v: real, t: real): real { u + t * (v - u) }

  /** The place on the line through two positions, the first at 0 and the second at 1. */
  function At(a: Position, b: Position, t: real): Position {
    Position(Mid(a.x, b.x, t), Mid(a.y, b.y, t))
  }
}
