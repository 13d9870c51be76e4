/**
 * The GameMap object: the layout it owns, its pellet counters, the
 * position checks the actors use, and the A* path search.
 */
module MazeMap {
  import opened Wrappers
  import opened Geometry
  import opened Layout
  import opened Collision
  import opened Search

  /** Where reset() places Pac-Man and the four ghosts (Blinky, Pinky, Inky, Clyde). */
  const PlayerStart: Point := Point(13.5, 23.0)
  const GhostStarts: seq<Point> := [Point(13.5, 11.0), Point(13.5, 14.0), Point(11.5, 14.0), Point(15.5, 14.0)]

  datatype PelletKind = Dot | Power

  /** What checkAndRemovePellet reports: the kind eaten and the points it is worth. */
  datatype PelletHit = PelletHit(kind: PelletKind, points: int)

  /** The pellet, if any, in the cell of (x, y). */
  function PelletAt(g: Grid, x: real, y: real): Option<PelletHit>
  {
    var code := CellType(g, x.Floor, y.Floor);
    if code == Pellet then Some(PelletHit(Dot, 10))
    else if code == PowerPellet then Some(PelletHit(Power, 50))
    else None
  }

  /** The layout once the pellet in the cell of (x, y), if any, is removed. */
  function EatAt(g: Grid, x: real, y: real): (h: Grid)
  {
    if PelletAt(g, x, y).Some? then SetCell(g, Cell(x.Floor, y.Floor), Empty) else g
  }

  /** A dot is worth 10 points and a power pellet 50, and only those two cells yield anything. */
  lemma PelletPoints(g: Grid, x: real, y: real)
    ensures PelletAt(g, x, y) == Some(PelletHit(Dot, 10)) <==> CellType(g, x.Floor, y.Floor) == Pellet
    ensures PelletAt(g, x, y) == Some(PelletHit(Power, 50)) <==> CellType(g, x.Floor, y.Floor) == PowerPellet
    ensures PelletAt(g, x, y).Some? ==> PelletAt(g, x, y) == Some(PelletHit(Dot, 10)) || PelletAt(g, x, y) == Some(PelletHit(Power, 50))
  {
  }

  /** Eating is idempotent: a second visit to the same cell finds nothing, and leaves the layout alone. */
  lemma EatTwice(g: Grid, x: real, y: real)
    ensures PelletAt(EatAt(g, x, y), x, y) == None
    ensures EatAt(EatAt(g, x, y), x, y) == EatAt(g, x, y)
  {
  }

  /** Eating touches no other cell, and leaves its own cell empty when it held a pellet. */
  lemma EatOthers(g: Grid, x: real, y: real, a: int, b: int)
    ensures (a != x.Floor || b != y.Floor) ==> CellType(EatAt(g, x, y), a, b) == CellType(g, a, b)
    ensures PelletAt(g, x, y).Some? ==> CellType(EatAt(g, x, y), x.Floor, y.Floor) == Empty
  {
  }

  /** Eating removes exactly one pellet of the kind found and none of the other kind. */
  lemma EatCounts(g: Grid, x: real, y: real)
    ensures CountGrid(EatAt(g, x, y), Pellet) ==
              CountGrid(g, Pellet) - (if PelletAt(g, x, y) == Some(PelletHit(Dot, 10)) then 1 else 0)
    ensures CountGrid(EatAt(g, x, y), PowerPellet) ==
              CountGrid(g, PowerPellet) - (if PelletAt(g, x, y) == Some(PelletHit(Power, 50)) then 1 else 0)
  {
    if PelletAt(g, x, y).Some? {
      CountGridUpdate(g, y.Floor, x.Floor, Empty, Pellet);
      CountGridUpdate(g, y.Floor, x.Floor, Empty, PowerPellet);
    }
  }

  /** In isValidPosition, a wall cell (cx, cy) inside the map that the shrunk circle touches. */
  predicate Blocks(g: Grid, x: real, y: real, cr: real, cx: int, cy: int)
  {
    0 <= cx < Width && 0 <= cy < Height && IsWall(g, cx as real, cy as real) &&
    CircleRectCollision(x, y, cr, cx as real, cy as real, 0.8, 0.8)
  }

  /**
   * isValidPosition: outside the map only the tunnel rows 13..15 are open;
   * inside it, no wall among the cells the circle of 0.6 times the radius
   * spans may touch that circle (walls counting as 0.8 by 0.8 squares).
   */
  ghost predicate ValidPosition(g: Grid, x: real, y: real, radius: real)
  {
    var cr := radius * 0.6;
    if x < 0.0 || x >= Width as real || y < 0.0 || y >= Height as real then
      13.0 <= y <= 15.0 && (x < 0.0 || x >= Width as real)
    else
      forall cy, cx :: (y - cr).Floor <= cy <= (y + cr).Floor && (x - cr).Floor <= cx <= (x + cr).Floor ==>
        !Blocks(g, x, y, cr, cx, cy)
  }

  /** The tunnel: any point beside the map in rows 13 to 15 is valid, any other point off the map is not. */
  lemma TunnelRows(g: Grid, x: real, y: real, radius: real)
    requires x < 0.0 || x >= Width as real
    ensures ValidPosition(g, x, y, radius) <==> 13.0 <= y <= 15.0
  {
  }

  /** A point in the wall part of a wall cell is never valid, whatever positive radius it is checked with. */
  lemma InsideWallInvalid(g: Grid, x: real, y: real, radius: real)
    requires 0.0 <= x < Width as real && 0.0 <= y < Height as real && radius > 0.0
    requires IsWall(g, x, y)
    requires x - x.Floor as real <= 0.8 && y - y.Floor as real <= 0.8
    ensures !ValidPosition(g, x, y, radius)
  {
    var cr := radius * 0.6;
    var cx, cy := x.Floor, y.Floor;
    assert IsWall(g, cx as real, cy as real);
    assert Square(x - x) + Square(y - y) == 0.0;
    assert Square(cr) > 0.0 by {
      SquareLess(0.0, cr, 0.0, cr * cr);
    }
    CircleRectCollisionExact(x, y, cr, cx as real, cy as real, 0.8, 0.8, x, y);
    assert Blocks(g, x, y, cr, cx, cy);
  }

  /** A point whose whole neighbourhood is free of walls is valid, whatever the radius below one. */
  lemma OpenCellsValid(g: Grid, x: real, y: real, radius: real)
    requires 0.0 <= x < Width as real && 0.0 <= y < Height as real && 0.0 <= radius < 1.0
    requires forall cx, cy :: x.Floor - 1 <= cx <= x.Floor + 1 && y.Floor - 1 <= cy <= y.Floor + 1 ==> CellType(g, cx, cy) != Wall
    ensures ValidPosition(g, x, y, radius)
  {
    var cr := radius * 0.6;
    assert x.Floor - 1 <= (x - cr).Floor && (x + cr).Floor <= x.Floor + 1;
    assert y.Floor - 1 <= (y - cr).Floor && (y + cr).Floor <= y.Floor + 1;
  }

  class GameMap {
    const width: int := Width
    const height: int := Height
    var layout: Grid
    var pelletsTotal: int
    var pelletsEaten: int
    var powerPelletsTotal: int
    var powerPelletsEaten: int

    /** The layout has the map's size, and the counters agree with the pellets still on it. */
    ghost predicate Valid()
      reads this
    {
      Shaped(layout) &&
      pelletsEaten >= 0 && powerPelletsEaten >= 0 &&
      pelletsTotal - pelletsEaten == CountGrid(layout, Pellet) &&
      powerPelletsTotal - powerPelletsEaten == CountGrid(layout, PowerPellet)
    }

    /** A map on the 448 by 496 pixel canvas (16-pixel cells), reset to level one. */
    constructor()
      ensures Valid() && layout == BaseLayout()
      ensures pelletsEaten == 0 && powerPelletsEaten == 0
      ensures pelletsTotal == CountGrid(BaseLayout(), Pellet) && powerPelletsTotal == CountGrid(BaseLayout(), PowerPellet)
    {
      new;
      Reset();
    }

    /** The level-one layout, with the totals counted from it and nothing eaten. */
    method Reset()
      modifies this
      ensures Valid() && layout == BaseLayout()
      ensures pelletsEaten == 0 && powerPelletsEaten == 0
      ensures pelletsTotal == CountGrid(BaseLayout(), Pellet) && powerPelletsTotal == CountGrid(BaseLayout(), PowerPellet)
    {
      BaseShaped();
      layout := BaseLayout();
      pelletsEaten, powerPelletsEaten := 0, 0;
      pelletsTotal, powerPelletsTotal := CountPellets(layout);
    }

    /** One list of loadLevel: every listed cell still holding a pellet becomes a wall and leaves the total. */
    method AddWalls(cells: seq<Cell>)
      requires Valid()
      requires forall i :: 0 <= i < |cells| ==> 0 <= cells[i].x < Width && 0 <= cells[i].y < Height
      modifies this
      ensures Valid() && layout == Walled(old(layout), cells)
      ensures pelletsEaten == old(pelletsEaten) && powerPelletsEaten == old(powerPelletsEaten)
      ensures powerPelletsTotal == old(powerPelletsTotal)
    {
      ghost var orig := layout;
      var i := 0;
      while i < |cells|
        invariant 0 <= i <= |cells| && Valid() && layout == Walled(orig, cells[..i])
        invariant pelletsEaten == old(pelletsEaten) && powerPelletsEaten == old(powerPelletsEaten)
        invariant powerPelletsTotal == old(powerPelletsTotal)
      {
        var wall := cells[i];
        assert cells[..i + 1][..i] == cells[..i];
        if layout[wall.y][wall.x] == Pellet {
          CountGridUpdate(layout, wall.y, wall.x, Wall, Pellet);
          CountGridUpdate(layout, wall.y, wall.x, Wall, PowerPellet);
          layout := layout[wall.y := layout[wall.y][wall.x := Wall]];
          pelletsTotal := pelletsTotal - 1;
        }
        i := i + 1;
      }
      assert cells[..i] == cells;
    }

    /** loadLevel: the level-one map, with the extra walls of level 3 and of level 5 on top. */
    method LoadLevel(level: int)
      modifies this
      ensures Valid() && layout == LevelLayout(level)
      ensures pelletsEaten == 0 && powerPelletsEaten == 0
      ensures powerPelletsTotal == CountGrid(BaseLayout(), PowerPellet)
      ensures pelletsTotal == CountGrid(layout, Pellet)
    {
      Reset();
      if level >= 3 {
        AddWalls(AdditionalWalls);
      }
      if level >= 5 {
        AddWalls(ExtraWalls);
      }
    }

    /** getCellType on the current layout: a wall outside it. */
    function GetCellType(x: int, y: int): (r: int)
      reads this
      ensures r == CellType(layout, x, y)
      ensures r != Wall ==> InBounds(layout, x, y)
    {
      CellType(layout, x, y)
    }

    /** checkAndRemovePellet: report and remove the pellet in the cell of (x, y), counting it as eaten. */
    method CheckAndRemovePellet(x: real, y: real) returns (hit: Option<PelletHit>)
      requires Valid()
      modifies this
      ensures Valid()
      ensures hit == PelletAt(old(layout), x, y) && layout == EatAt(old(layout), x, y)
      ensures pelletsEaten == old(pelletsEaten) + (if hit == Some(PelletHit(Dot, 10)) then 1 else 0)
      ensures powerPelletsEaten == old(powerPelletsEaten) + (if hit == Some(PelletHit(Power, 50)) then 1 else 0)
      ensures pelletsTotal == old(pelletsTotal) && powerPelletsTotal == old(powerPelletsTotal)
    {
      var mapX := x.Floor;
      var mapY := y.Floor;
      EatCounts(layout, x, y);
      hit := None;
      if 0 <= mapY < |layout| && 0 <= mapX < |layout[mapY]| {
        if layout[mapY][mapX] == Pellet {
          layout := layout[mapY := layout[mapY][mapX := Empty]];
          pelletsEaten := pelletsEaten + 1;
          hit := Some(PelletHit(Dot, 10));
        } else if layout[mapY][mapX] == PowerPellet {
          layout := layout[mapY := layout[mapY][mapX := Empty]];
          powerPelletsEaten := powerPelletsEaten + 1;
          hit := Some(PelletHit(Power, 50));
        }
      }
    }

    /** areAllPelletsEaten: on a consistent map, true exactly when no dot and no power pellet is left. */
    function AreAllPelletsEaten(): (r: bool)
      reads this
      ensures Valid() ==>
        (r <==> forall cy, cx :: 0 <= cy < |layout| && 0 <= cx < |layout[cy]| ==>
                  layout[cy][cx] != Pellet && layout[cy][cx] != PowerPellet)
    {
      CountGridZero(layout, Pellet);
      CountGridZero(layout, PowerPellet);
      pelletsEaten == pelletsTotal && powerPelletsEaten == powerPelletsTotal
    }

    /** isValidPosition, scanning the cells the shrunk circle spans row by row. */
    method IsValidPosition(x: real, y: real, radius: real) returns (r: bool)
      ensures r == ValidPosition(layout, x, y, radius)
    {
      if x < 0.0 || x >= width as real || y < 0.0 || y >= height as real {
        if (13.0 <= y <= 15.0) && (x < 0.0 || x >= width as real) {
          return true;
        }
        return false;
      }
      var checkRadius := radius * 0.6;
      var checkY := (y - checkRadius).Floor;
      while checkY <= (y + checkRadius).Floor
        invariant (y - checkRadius).Floor <= checkY
        invariant forall cy, cx :: (y - checkRadius).Floor <= cy < checkY && (x - checkRadius).Floor <= cx <= (x + checkRadius).Floor ==>
                    !Blocks(layout, x, y, checkRadius, cx, cy)
        decreases (y + checkRadius).Floor - checkY
      {
        var checkX := (x - checkRadius).Floor;
        while checkX <= (x + checkRadius).Floor
          invariant (x - checkRadius).Floor <= checkX
          invariant forall cy, cx :: (y - checkRadius).Floor <= cy < checkY && (x - checkRadius).Floor <= cx <= (x + checkRadius).Floor ==>
                      !Blocks(layout, x, y, checkRadius, cx, cy)
          invariant forall cx :: (x - checkRadius).Floor <= cx < checkX ==> !Blocks(layout, x, y, checkRadius, cx, checkY)
          decreases (x + checkRadius).Floor - checkX
        {
          if checkX < 0 || checkX >= width || checkY < 0 || checkY >= height {
            checkX := checkX + 1;
            continue;
          }
          if IsWall(layout, checkX as real, checkY as real) {
            if CircleRectCollision(x, y, checkRadius, checkX as real, checkY as real, 0.8, 0.8) {
              assert Blocks(layout, x, y, checkRadius, checkX, checkY);
              return false;
            }
          }
          checkX := checkX + 1;
        }
        checkY := checkY + 1;
      }
      return true;
    }

    /**
     * findPath: A* from the cell of the start to the cell of the target.
     * The result is empty when both cells coincide or no route exists, and
     * otherwise a shortest route from the start's neighbour to the target.
     */
    method FindPath(startX: real, startY: real, targetX: real, targetY: real, canPassGhostDoor: bool) returns (path: seq<Point>)
      ensures var s, t := CellOf(Point(startX, startY)), CellOf(Point(targetX, targetY));
        (s == t ==> path == []) &&
        (path != [] ==> IsRoute(layout, canPassGhostDoor, s, t, path)) &&
        (path != [] ==> forall w :: IsWalk(layout, canPassGhostDoor, s, t, w) ==> |path| <= |w| - 1) &&
        (path == [] && s != t ==> forall w :: !IsWalk(layout, canPassGhostDoor, s, t, w))
    {
      var grid := layout;
      var s := Cell(startX.Floor, startY.Floor);
      var t := Cell(targetX.Floor, targetY.Floor);
      var start := Node(s, 0, Heuristic(s, t), Heuristic(s, t), None);
      var openSet := [start];
      var closedSet: map<Cell, Node> := map[];
      ghost var universe := Universe(grid, s);
      InitialInv(grid, canPassGhostDoor, s, t);
      while |openSet| > 0
        invariant Inv(grid, canPassGhostDoor, s, t, openSet, closedSet)
        decreases universe - closedSet.Keys
      {
        var lowestIndex := LowestIndex(openSet);
        var current := openSet[lowestIndex];
        if current.cell == t {
          PopOptimal(grid, canPassGhostDoor, s, t, openSet, closedSet, lowestIndex);
          path := Reconstruct(grid, canPassGhostDoor, s, t, closedSet, current);
          return;
        }
        PopStep(grid, canPassGhostDoor, s, t, openSet, closedSet, lowestIndex);
        ClosedInUniverse(grid, canPassGhostDoor, s, closedSet);
        openSet := openSet[..lowestIndex] + openSet[lowestIndex + 1..];
        closedSet := closedSet[current.cell := current];
        var m := 0;
        while m < |Wheel|
          invariant 0 <= m <= 4 && PartialInv(grid, canPassGhostDoor, s, t, openSet, closedSet, current, m)
        {
          var neighbor := Step(current.cell, Wheel[m]);
          ClassifiersAtCell(grid, neighbor.x as real, neighbor.y as real);
          if neighbor in closedSet {
            RelaxSkip(grid, canPassGhostDoor, s, t, openSet, closedSet, current, m);
          } else if IsWall(grid, neighbor.x as real, neighbor.y as real) {
            RelaxSkip(grid, canPassGhostDoor, s, t, openSet, closedSet, current, m);
          } else if !canPassGhostDoor && IsGhostDoor(grid, neighbor.x as real, neighbor.y as real) {
            RelaxSkip(grid, canPassGhostDoor, s, t, openSet, closedSet, current, m);
          } else {
            var h := Heuristic(neighbor, t);
            var node := Node(neighbor, current.g + 1, h, current.g + 1 + h, Some(current.cell));
            RelaxVisit(grid, canPassGhostDoor, s, t, openSet, closedSet, current, m, node);
            openSet := Relax(openSet, node);
          }
          m := m + 1;
        }
        PartialInvDone(grid, canPassGhostDoor, s, t, openSet, closedSet, current);
        ClosedInUniverse(grid, canPassGhostDoor, s, closedSet);
      }
      Exhausted(grid, canPassGhostDoor, s, t, closedSet);
      return [];
    }
  }

  /** reset()'s scan of every row and column, counting dots and power pellets. */
  method CountPellets(g: Grid) returns (pellets: nat, powerPellets: nat)
    requires Shaped(g)
    ensures pellets == CountGrid(g, Pellet) && powerPellets == CountGrid(g, PowerPellet)
  {
    pellets, powerPellets := 0, 0;
    var y := 0;
    while y < Height
      invariant 0 <= y <= Height
      invariant pellets == CountGrid(g[..y], Pellet) && powerPellets == CountGrid(g[..y], PowerPellet)
    {
      var x := 0;
      while x < Width
        invariant 0 <= x <= Width
        invariant pellets == CountGrid(g[..y], Pellet) + CountRow(g[y][..x], Pellet)
        invariant powerPellets == CountGrid(g[..y], PowerPellet) + CountRow(g[y][..x], PowerPellet)
      {
        assert g[y][..x + 1][..x] == g[y][..x];
        if g[y][x] == Pellet {
          pellets := pellets + 1;
        } else if g[y][x] == PowerPellet {
          powerPellets := powerPellets + 1;
        }
        x := x + 1;
      }
      assert g[y][..x] == g[y];
      assert g[..y + 1][..y] == g[..y];
      y := y + 1;
    }
    assert g[..y] == g;
  }

  /** The back-to-front walk along the parent links of findPath, reversed into a route. */
  method Reconstruct(g: Grid, canPassDoor: bool, s: Cell, t: Cell, closed: map<Cell, Node>, current: Node)
      returns (path: seq<Point>)
    requires Parents(g, canPassDoor, s, closed) && t !in closed && (closed != map[] ==> s in closed)
    requires current.cell == t && current.cell !in closed && NodeOk(g, canPassDoor, s, closed, current)
    ensures |path| == current.g
    ensures s == t ==> path == []
    ensures path != [] ==> IsRoute(g, canPassDoor, s, t, path)
  {
    var reversed: seq<Point> := [];
    ghost var route: seq<Cell> := [];
    var temp := current;
    while temp.parent.Some?
      invariant NodeOk(g, canPassDoor, s, closed, temp)
      invariant temp.g + |reversed| == current.g
      invariant Reversed(reversed) == Centers(route)
      invariant Chain(g, canPassDoor, temp.cell, t, route)
      decreases temp.g
    {
      ReversedPush(reversed, Center(temp.cell));
      reversed := reversed + [Center(temp.cell)];
      ChainPush(g, canPassDoor, temp.parent.value, temp.cell, t, route);
      route := [temp.cell] + route;
      temp := closed[temp.parent.value];
    }
    path := Reversed(reversed);
    if route != [] {
      ChainRoute(g, canPassDoor, s, t, route);
    } else if s == t {
      assert path == [];
    }
  }
}
