/** Board geometry of the 8x8 Othello grid: coordinates, the eight ray
    directions and the x-major numbering of the 64 cells.
    Coordinates are column first, as in `board[x][y]`. */
module Geometry {

  /** A cell coordinate: column `x`, row `y`.  Values off the board are allowed
      (rays step past the edge before they stop). */
  datatype Pos = Pos(x: int, y: int)

  /** A direction vector of a ray. */
  datatype Vec = Vec(dx: int, dy: int)

  /** True when (x, y) lies on the board. */
  predicate IsOnBoard(x: int, y: int)
  {
    0 <= x <= 7 && 0 <= y <= 7
  }

  /** `IsOnBoard` on a position. */
  predicate OnBoard(p: Pos)
  {
    IsOnBoard(p.x, p.y)
  }

  /** True when (x, y) is one of the four corners. */
  predicate IsOnCorner(x: int, y: int)
    ensures IsOnCorner(x, y) ==> IsOnBoard(x, y)
    ensures IsOnCorner(x, y) <==> (x == 0 || x == 7) && (y == 0 || y == 7)
  {
    (x == 0 && y == 0) || (x == 7 && y == 0) || (x == 0 && y == 7) || (x == 7 && y == 7)
  }

  /** The number of a cell in x-major order. */
  function Index(p: Pos): int
  {
    8 * p.x + p.y
  }

  /** The eight directions, in the order the flip scan visits them. */
  const Directions: seq<Vec> :=
    [Vec(0, 1), Vec(1, 1), Vec(1, 0), Vec(1, -1), Vec(0, -1), Vec(-1, -1), Vec(-1, 0), Vec(-1, 1)]

  /** A unit step to one of the eight neighbours. */
  predicate IsDirection(v: Vec)
  {
    -1 <= v.dx <= 1 && -1 <= v.dy <= 1 && v != Vec(0, 0)
  }

  /** The component `d` scaled by `n`, for a unit component. */
  function Along(d: int, n: int): int
  {
    if d > 0 then n else if d < 0 then -n else 0
  }

  /** The position `n` steps from `p` along `v`. */
  function Ray(p: Pos, v: Vec, n: int): Pos
  {
    Pos(p.x + Along(v.dx, n), p.y + Along(v.dy, n))
  }

  /** How many more steps along `v` stay on the board, counted per axis;
      the measure that makes ray walks terminate. */
  function Room(p: Pos, v: Vec): nat
    requires IsOnBoard(p.x, p.y)
  {
    (if v.dx > 0 then 7 - p.x else if v.dx < 0 then p.x else 0)
    + (if v.dy > 0 then 7 - p.y else if v.dy < 0 then p.y else 0)
  }

  /** Every listed direction is a unit step. */
  lemma DirectionsAreUnit()
    ensures |Directions| == 8
    ensures forall i :: 0 <= i < 8 ==> IsDirection(Directions[i])
  {
  }

  /** No direction is listed twice. */
  lemma DirectionIndexUnique(i: int, j: int)
    requires 0 <= i < 8 && 0 <= j < 8 && Directions[i] == Directions[j]
    ensures i == j
  {
  }

  /** Stepping once more along a ray. */
  lemma RayNext(p: Pos, v: Vec, n: int)
    requires IsDirection(v)
    ensures Ray(Ray(p, v, 1), v, n) == Ray(p, v, n + 1)
    ensures Ray(Ray(p, v, n), v, 1) == Ray(p, v, n + 1)
    ensures Ray(p, v, n + 1) == Pos(Ray(p, v, n).x + v.dx, Ray(p, v, n).y + v.dy)
    ensures Ray(p, v, 0) == p
  {
  }

  /** A ray never comes back to its start. */
  lemma RayLeavesStart(p: Pos, v: Vec, n: int)
    requires IsDirection(v) && n != 0
    ensures Ray(p, v, n) != p
  {
  }

  /** Two rays from the same start meet only when they are the same ray at the
      same distance. */
  lemma RayInjective(p: Pos, v: Vec, w: Vec, j: int, k: int)
    requires IsDirection(v) && IsDirection(w) && 1 <= j && 1 <= k
    requires Ray(p, v, j) == Ray(p, w, k)
    ensures v == w && j == k
  {
  }
}
