/**
 * Directions, grid cells, points and the square-root oracle shared by the
 * map, the ghosts, the player and the game.
 */
module Geometry {
  import opened Wrappers

  /** The four movement directions ('up', 'down', 'left', 'right'). */
  datatype Direction = Up | Down | Left | Right

  /** The reverse of a direction, as in reverseDirection and getPossibleDirections. */
  function Opposite(d: Direction): (r: Direction)
    ensures r != d
    ensures DeltaX(r) == -DeltaX(d) && DeltaY(r) == -DeltaY(d)
  {
    match d
    case Up => Down
    case Down => Up
    case Left => Right
    case Right => Left
  }

  lemma OppositeInvolution(d: Direction)
    ensures Opposite(Opposite(d)) == d
  {
  }

  /** The name the game uses for a direction. */
  function Name(d: Direction): string
  {
    match d
    case Up => "up"
    case Down => "down"
    case Left => "left"
    case Right => "right"
  }

  /** Reading a direction name; anything but the four names is rejected. */
  function Parse(s: string): (r: Option<Direction>)
    ensures r.Some? <==> s == "up" || s == "down" || s == "left" || s == "right"
    ensures r.Some? ==> Name(r.value) == s
  {
    if s == "up" then Some(Up)
    else if s == "down" then Some(Down)
    else if s == "left" then Some(Left)
    else if s == "right" then Some(Right)
    else None
  }

  lemma ParseName(d: Direction)
    ensures Parse(Name(d)) == Some(d)
  {
  }

  /** Unit steps on the screen grid: y grows downwards. */
  function DeltaX(d: Direction): int
  {
    match d
    case Left => -1
    case Right => 1
    case _ => 0
  }

  function DeltaY(d: Direction): int
  {
    match d
    case Up => -1
    case Down => 1
    case _ => 0
  }

  /** The order in which the source visits neighbours: up, right, down, left. */
  const Wheel: seq<Direction> := [Up, Right, Down, Left]

  lemma WheelComplete(d: Direction)
    ensures d in Wheel
  {
  }

  /** An integer map cell. */
  datatype Cell = Cell(x: int, y: int)

  function Step(c: Cell, d: Direction): Cell
  {
    Cell(c.x + DeltaX(d), c.y + DeltaY(d))
  }

  function Abs(n: int): nat
  {
    if n < 0 then -n else n
  }

  /** The A* heuristic: Manhattan distance between two cells. */
  function Manhattan(a: Cell, b: Cell): nat
  {
    Abs(a.x - b.x) + Abs(a.y - b.y)
  }

  /** 4-adjacency. */
  predicate Adjacent(a: Cell, b: Cell)
  {
    Manhattan(a, b) == 1
  }

  lemma ManhattanTriangle(a: Cell, b: Cell, c: Cell)
    ensures Manhattan(a, c) <= Manhattan(a, b) + Manhattan(b, c)
  {
  }

  /** Adjacent cells are exactly the one-step neighbours. */
  lemma AdjacentIsStep(a: Cell, b: Cell)
    ensures Adjacent(a, b) <==> Step(a, Up) == b || Step(a, Down) == b || Step(a, Left) == b || Step(a, Right) == b
  {
  }

  /** A position in map units. */
  datatype Point = Point(x: real, y: real)

  /** The cell a point lies in. */
  function CellOf(p: Point): Cell
  {
    Cell(p.x.Floor, p.y.Floor)
  }

  /** The centre of a cell, as the path waypoints are written. */
  function Center(c: Cell): (p: Point)
    ensures CellOf(p) == c
    ensures p.x == p.x.Floor as real + 0.5 && p.y == p.y.Floor as real + 0.5
  {
    Point(c.x as real + 0.5, c.y as real + 0.5)
  }

  /** Snapping to the centre of the current cell keeps the cell. */
  lemma SnapKeepsCell(v: real)
    ensures (v.Floor as real + 0.5).Floor == v.Floor
  {
  }

  /** An integer read back from its real is itself. */
  lemma FloorOfInt(n: int)
    ensures (n as real).Floor == n
  {
  }

  function Square(v: real): real
  {
    v * v
  }

  /** Math.sqrt, given as a parameter: any function that returns the non-negative root. */
  ghost predicate IsSqrt(sqrt: real -> real)
  {
    forall a: real {:trigger sqrt(a)} :: a >= 0.0 ==> sqrt(a) >= 0.0 && sqrt(a) * sqrt(a) == a
  }

  lemma SquareNonNegative(v: real, vv: real)
    requires vv == v * v
    ensures vv >= 0.0
  {
  }

  lemma SumOfSquaresNonNegative(a: real, b: real)
    ensures Square(a) + Square(b) >= 0.0
  {
    SquareNonNegative(a, Square(a));
    SquareNonNegative(b, Square(b));
  }

  lemma MulMono(p: real, q: real, c: real, pc: real, qc: real)
    requires pc == p * c && qc == q * c && p <= q && c >= 0.0
    ensures pc <= qc
  {
  }

  lemma MulMonoStrict(p: real, q: real, c: real, pc: real, qc: real)
    requires pc == p * c && qc == q * c && p < q && c > 0.0
    ensures pc < qc
  {
  }

  /** Squaring is strictly monotone on the non-negative reals. */
  lemma SquareLess(r: real, b: real, rr: real, bb: real)
    requires rr == r * r && bb == b * b && r >= 0.0 && b >= 0.0
    ensures r < b <==> rr < bb
  {
    var rb := r * b;
    assert rb == b * r;
    if r < b {
      MulMono(r, b, r, rr, rb);
      MulMonoStrict(r, b, b, rb, bb);
    } else {
      MulMono(b, r, r, rb, rr);
      MulMono(b, r, b, bb, rb);
    }
  }

  /** `sqrt(a) < b` decided on squares. */
  lemma SqrtLess(sqrt: real -> real, a: real, b: real)
    requires IsSqrt(sqrt) && a >= 0.0
    ensures sqrt(a) < b <==> b > 0.0 && a < b * b
  {
    if b > 0.0 {
      SquareLess(sqrt(a), b, a, b * b);
    }
  }

  /** `sqrt(a) > b` decided on squares. */
  lemma SqrtGreater(sqrt: real -> real, a: real, b: real)
    requires IsSqrt(sqrt) && a >= 0.0
    ensures sqrt(a) > b <==> b < 0.0 || a > b * b
  {
    if b >= 0.0 {
      SquareLess(b, sqrt(a), b * b, a);
    }
  }
}
