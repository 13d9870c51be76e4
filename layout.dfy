/**
 * The maze layout of GameMap as a value: cell codes, the base level, the
 * per-level wall conversions and pellet counting.
 */
module Layout {
  import opened Geometry

  /** Map size in cells: the 448x496 canvas divided into 16-pixel cells. */
  const Width: int := 28
  const Height: int := 31

  /** Cell codes of the layout. */
  const Empty: int := 0
  const Wall: int := 1
  const Pellet: int := 2
  const PowerPellet: int := 3
  const House: int := 4
  const Door: int := 5

  type Grid = seq<seq<int>>

  /** The level-one maze, row by row. */
  function BaseLayout(): Grid
  {
    [
      [1,1,1,1,1,1,1,1,1,1,1,1,1,1,1,1,1,1,1,1,1,1,1,1,1,1,1,1],
      [1,2,2,2,2,2,2,2,2,2,2,2,2,1,1,2,2,2,2,2,2,2,2,2,2,2,2,1],
      [1,2,1,1,1,1,2,1,1,1,1,1,2,1,1,2,1,1,1,1,1,2,1,1,1,1,2,1],
      [1,3,1,1,1,1,2,1,1,1,1,1,2,1,1,2,1,1,1,1,1,2,1,1,1,1,3,1],
      [1,2,1,1,1,1,2,1,1,1,1,1,2,1,1,2,1,1,1,1,1,2,1,1,1,1,2,1],
      [1,2,2,2,2,2,2,2,2,2,2,2,2,2,2,2,2,2,2,2,2,2,2,2,2,2,2,1],
      [1,2,1,1,1,1,2,1,1,2,1,1,1,1,1,1,1,1,2,1,1,2,1,1,1,1,2,1],
      [1,2,1,1,1,1,2,1,1,2,1,1,1,1,1,1,1,1,2,1,1,2,1,1,1,1,2,1],
      [1,2,2,2,2,2,2,1,1,2,2,2,2,1,1,2,2,2,2,1,1,2,2,2,2,2,2,1],
      [1,1,1,1,1,1,2,1,1,1,1,1,0,1,1,0,1,1,1,1,1,2,1,1,1,1,1,1],
      [0,0,0,0,0,1,2,1,1,1,1,1,0,1,1,0,1,1,1,1,1,2,1,0,0,0,0,0],
      [0,0,0,0,0,1,2,1,1,0,0,0,0,0,0,0,0,0,0,1,1,2,1,0,0,0,0,0],
      [0,0,0,0,0,1,2,1,1,0,1,1,1,5,5,1,1,1,0,1,1,2,1,0,0,0,0,0],
      [1,1,1,1,1,1,2,1,1,0,1,4,4,4,4,4,4,1,0,1,1,2,1,1,1,1,1,1],
      [0,0,0,0,0,0,2,0,0,0,1,4,4,4,4,4,4,1,0,0,0,2,0,0,0,0,0,0],
      [1,1,1,1,1,1,2,1,1,0,1,4,4,4,4,4,4,1,0,1,1,2,1,1,1,1,1,1],
      [0,0,0,0,0,1,2,1,1,0,1,1,1,1,1,1,1,1,0,1,1,2,1,0,0,0,0,0],
      [0,0,0,0,0,1,2,1,1,0,0,0,0,0,0,0,0,0,0,1,1,2,1,0,0,0,0,0],
      [0,0,0,0,0,1,2,1,1,0,1,1,1,1,1,1,1,1,0,1,1,2,1,0,0,0,0,0],
      [1,1,1,1,1,1,2,1,1,0,1,1,1,1,1,1,1,1,0,1,1,2,1,1,1,1,1,1],
      [1,2,2,2,2,2,2,2,2,2,2,2,2,1,1,2,2,2,2,2,2,2,2,2,2,2,2,1],
      [1,2,1,1,1,1,2,1,1,1,1,1,2,1,1,2,1,1,1,1,1,2,1,1,1,1,2,1],
      [1,2,1,1,1,1,2,1,1,1,1,1,2,1,1,2,1,1,1,1,1,2,1,1,1,1,2,1],
      [1,3,2,2,1,1,2,2,2,2,2,2,2,0,0,2,2,2,2,2,2,2,1,1,2,2,3,1],
      [1,1,1,2,1,1,2,1,1,2,1,1,1,1,1,1,1,1,2,1,1,2,1,1,2,1,1,1],
      [1,1,1,2,1,1,2,1,1,2,1,1,1,1,1,1,1,1,2,1,1,2,1,1,2,1,1,1],
      [1,2,2,2,2,2,2,1,1,2,2,2,2,1,1,2,2,2,2,1,1,2,2,2,2,2,2,1],
      [1,2,1,1,1,1,1,1,1,1,1,1,2,1,1,2,1,1,1,1,1,1,1,1,1,1,2,1],
      [1,2,1,1,1,1,1,1,1,1,1,1,2,1,1,2,1,1,1,1,1,1,1,1,1,1,2,1],
      [1,2,2,2,2,2,2,2,2,2,2,2,2,2,2,2,2,2,2,2,2,2,2,2,2,2,2,1],
      [1,1,1,1,1,1,1,1,1,1,1,1,1,1,1,1,1,1,1,1,1,1,1,1,1,1,1,1]
    ]
  }

  /** Every layout the map holds has Height rows of Width cells. */
  predicate Shaped(g: Grid)
  {
    |g| == Height && forall y :: 0 <= y < |g| ==> |g[y]| == Width
  }

  lemma BaseShaped()
    ensures Shaped(BaseLayout())
  {
  }

  predicate InBounds(g: Grid, x: int, y: int)
  {
    0 <= y < |g| && 0 <= x < |g[y]|
  }

  /** getCellType: the stored code, and a wall for every coordinate outside the layout. */
  function CellType(g: Grid, x: int, y: int): (r: int)
    ensures !InBounds(g, x, y) ==> r == Wall
    ensures InBounds(g, x, y) ==> r == g[y][x]
  {
    if 0 <= y < |g| && 0 <= x < |g[y]| then g[y][x] else Wall
  }

  function CodeAt(g: Grid, c: Cell): int
  {
    CellType(g, c.x, c.y)
  }

  /** isWall, isGhostDoor and isInGhostHouse look at the cell of the floored coordinates. */
  function IsWall(g: Grid, x: real, y: real): bool
  {
    CellType(g, x.Floor, y.Floor) == Wall
  }

  function IsGhostDoor(g: Grid, x: real, y: real): bool
  {
    CellType(g, x.Floor, y.Floor) == Door
  }

  function IsInGhostHouse(g: Grid, x: real, y: real): bool
  {
    CellType(g, x.Floor, y.Floor) == House
  }

  /** A point whose cell lies outside the layout is a wall, and neither a door nor part of the house. */
  lemma OutsideIsWall(g: Grid, x: real, y: real)
    requires !InBounds(g, x.Floor, y.Floor)
    ensures IsWall(g, x, y) && !IsGhostDoor(g, x, y) && !IsInGhostHouse(g, x, y)
  {
  }

  /** The three classifiers are the floored cell's code compared with 1, 5 and 4. */
  lemma ClassifiersAtCell(g: Grid, x: real, y: real)
    ensures IsWall(g, x, y) <==> CodeAt(g, CellOf(Point(x, y))) == Wall
    ensures IsGhostDoor(g, x, y) <==> CodeAt(g, CellOf(Point(x, y))) == Door
    ensures IsInGhostHouse(g, x, y) <==> CodeAt(g, CellOf(Point(x, y))) == House
    ensures IsWall(g, x, y) ==> !IsGhostDoor(g, x, y) && !IsInGhostHouse(g, x, y)
  {
  }

  /** Number of cells of a row holding code v. */
  function CountRow(row: seq<int>, v: int): (n: nat)
    ensures n <= |row|
  {
    if row == [] then 0
    else CountRow(row[..|row| - 1], v) + (if row[|row| - 1] == v then 1 else 0)
  }

  /** Number of cells of a grid holding code v. */
  function CountGrid(g: Grid, v: int): nat
  {
    if g == [] then 0
    else CountGrid(g[..|g| - 1], v) + CountRow(g[|g| - 1], v)
  }

  /** Overwriting one cell changes the count by the codes that left and arrived. */
  lemma {:induction false} CountRowUpdate(row: seq<int>, x: nat, w: int, v: int)
    requires x < |row|
    ensures CountRow(row[x := w], v) ==
              CountRow(row, v) - (if row[x] == v then 1 else 0) + (if w == v then 1 else 0)
  {
    var n := |row| - 1;
    assert row[x := w][..n] == if x == n then row[..n] else row[..n][x := w];
    if x < n {
      CountRowUpdate(row[..n], x, w, v);
    }
  }

  lemma {:induction false} CountGridUpdate(g: Grid, y: nat, x: nat, w: int, v: int)
    requires y < |g| && x < |g[y]|
    ensures CountGrid(g[y := g[y][x := w]], v) ==
              CountGrid(g, v) - (if g[y][x] == v then 1 else 0) + (if w == v then 1 else 0)
  {
    var n := |g| - 1;
    var h := g[y := g[y][x := w]];
    assert h[..n] == if y == n then g[..n] else g[..n][y := g[y][x := w]];
    if y < n {
      CountGridUpdate(g[..n], y, x, w, v);
    } else {
      CountRowUpdate(g[y], x, w, v);
    }
  }

  /** A row count is zero exactly when no cell holds the code. */
  lemma {:induction false} CountRowZero(row: seq<int>, v: int)
    ensures CountRow(row, v) == 0 <==> forall x :: 0 <= x < |row| ==> row[x] != v
  {
    if row != [] {
      var n := |row| - 1;
      CountRowZero(row[..n], v);
      assert forall x :: 0 <= x < n ==> row[..n][x] == row[x];
    }
  }

  /** A grid count is zero exactly when no cell holds the code. */
  lemma {:induction false} CountGridZero(g: Grid, v: int)
    ensures CountGrid(g, v) == 0 <==> forall y, x :: 0 <= y < |g| && 0 <= x < |g[y]| ==> g[y][x] != v
  {
    if g != [] {
      var n := |g| - 1;
      CountGridZero(g[..n], v);
      CountRowZero(g[n], v);
      assert forall y :: 0 <= y < n ==> g[..n][y] == g[y];
    }
  }

  /** Writing code v into an in-bounds cell; everything else is kept. */
  function SetCell(g: Grid, c: Cell, v: int): (h: Grid)
    requires InBounds(g, c.x, c.y)
    ensures |h| == |g| && forall y :: 0 <= y < |g| ==> |h[y]| == |g[y]|
    ensures forall x, y :: CellType(h, x, y) == if x == c.x && y == c.y then v else CellType(g, x, y)
  {
    g[c.y := g[c.y][c.x := v]]
  }

  /** The cells each listed position walls up when it still holds a pellet (loadLevel). */
  function Walled(g: Grid, cells: seq<Cell>): (h: Grid)
    ensures |h| == |g| && forall y :: 0 <= y < |g| ==> |h[y]| == |g[y]|
  {
    if cells == [] then g
    else
      var prev := Walled(g, cells[..|cells| - 1]);
      var c := cells[|cells| - 1];
      if CellType(prev, c.x, c.y) == Pellet then SetCell(prev, c, Wall) else prev
  }

  /** The walls added from level 3 on. */
  const AdditionalWalls: seq<Cell> := [Cell(13, 8), Cell(14, 8), Cell(6, 15), Cell(21, 15), Cell(9, 21), Cell(18, 21)]

  /** The walls added from level 5 on. */
  const ExtraWalls: seq<Cell> := [Cell(8, 10), Cell(19, 10), Cell(11, 16), Cell(16, 16), Cell(13, 20), Cell(14, 20)]

  /** The layout loadLevel(level) leaves behind. */
  function LevelLayout(level: int): Grid
  {
    var g3 := if level >= 3 then Walled(BaseLayout(), AdditionalWalls) else BaseLayout();
    if level >= 5 then Walled(g3, ExtraWalls) else g3
  }

  predicate Distinct(cells: seq<Cell>)
  {
    forall i, j :: 0 <= i < j < |cells| ==> cells[i] != cells[j]
  }

  /**
   * Each listed cell that holds a pellet becomes a wall, every other listed
   * cell keeps its code, and cells off the list are untouched.
   */
  lemma {:induction false} WalledEffect(g: Grid, cells: seq<Cell>, x: int, y: int)
    requires Distinct(cells)
    ensures Cell(x, y) in cells ==>
              CellType(Walled(g, cells), x, y) == if CellType(g, x, y) == Pellet then Wall else CellType(g, x, y)
    ensures Cell(x, y) !in cells ==> CellType(Walled(g, cells), x, y) == CellType(g, x, y)
  {
    if cells != [] {
      var n := |cells| - 1;
      var prev := Walled(g, cells[..n]);
      assert cells == cells[..n] + [cells[n]];
      WalledEffect(g, cells[..n], x, y);
      if Cell(x, y) == cells[n] {
        assert Cell(x, y) !in cells[..n];
      }
    }
  }

  /** Walling up cells that hold no pellet changes nothing. */
  lemma {:induction false} WalledNoPellets(g: Grid, cells: seq<Cell>)
    requires forall i :: 0 <= i < |cells| ==> CellType(g, cells[i].x, cells[i].y) != Pellet
    ensures Walled(g, cells) == g
  {
    if cells != [] {
      WalledNoPellets(g, cells[..|cells| - 1]);
    }
  }

  /** Two grids of the same shape that agree on every cell are equal. */
  lemma SameCellsSameGrid(g: Grid, h: Grid)
    requires |g| == |h| && forall y :: 0 <= y < |g| ==> |g[y]| == |h[y]|
    requires forall x, y :: CellType(g, x, y) == CellType(h, x, y)
    ensures g == h
  {
    forall y | 0 <= y < |g|
      ensures g[y] == h[y]
    {
      forall x | 0 <= x < |g[y]|
        ensures g[y][x] == h[y][x]
      {
        assert CellType(g, x, y) == CellType(h, x, y);
      }
    }
  }

  /** The codes the level-one maze holds at the cells the two wall lists name. */
  predicate ListedCellsAsBase(g: Grid)
  {
    Shaped(g) &&
    CellType(g, 6, 15) == Pellet && CellType(g, 21, 15) == Pellet &&
    CellType(g, 13, 8) == Wall && CellType(g, 14, 8) == Wall &&
    CellType(g, 9, 21) == Wall && CellType(g, 18, 21) == Wall &&
    CellType(g, 8, 10) == Wall && CellType(g, 19, 10) == Wall &&
    CellType(g, 11, 16) == Wall && CellType(g, 16, 16) == Wall &&
    CellType(g, 13, 20) == Wall && CellType(g, 14, 20) == Wall
  }

  lemma BaseListedCells()
    ensures ListedCellsAsBase(BaseLayout())
  {
    BaseShaped();
  }

  /** On a maze like the level-one one, the level-3 list walls up exactly (6, 15) and (21, 15). */
  lemma LevelThreeCellOf(g: Grid, x: int, y: int)
    requires ListedCellsAsBase(g)
    ensures CellType(Walled(g, AdditionalWalls), x, y) ==
              CellType(SetCell(SetCell(g, Cell(6, 15), Wall), Cell(21, 15), Wall), x, y)
  {
    WalledEffect(g, AdditionalWalls, x, y);
  }

  lemma LevelThreeCell(x: int, y: int)
    ensures CellType(Walled(BaseLayout(), AdditionalWalls), x, y) ==
              CellType(SetCell(SetCell(BaseLayout(), Cell(6, 15), Wall), Cell(21, 15), Wall), x, y)
  {
    BaseListedCells();
    LevelThreeCellOf(BaseLayout(), x, y);
  }

  /** From level 3 on, exactly the two pellet cells of the list, (6, 15) and (21, 15), become walls. */
  lemma LevelThreeLayout()
    ensures LevelLayout(3) == SetCell(SetCell(BaseLayout(), Cell(6, 15), Wall), Cell(21, 15), Wall)
  {
    BaseShaped();
    var g3 := Walled(BaseLayout(), AdditionalWalls);
    var h := SetCell(SetCell(BaseLayout(), Cell(6, 15), Wall), Cell(21, 15), Wall);
    forall x, y
      ensures CellType(g3, x, y) == CellType(h, x, y)
    {
      LevelThreeCell(x, y);
    }
    SameCellsSameGrid(g3, h);
  }

  /** On a maze like the level-one one, the level-5 list finds no pellet once the level-3 list is applied. */
  lemma ExtraWallsOf(g: Grid)
    requires ListedCellsAsBase(g)
    ensures Walled(Walled(g, AdditionalWalls), ExtraWalls) == Walled(g, AdditionalWalls)
  {
    var g3 := Walled(g, AdditionalWalls);
    forall i | 0 <= i < |ExtraWalls|
      ensures CellType(g3, ExtraWalls[i].x, ExtraWalls[i].y) != Pellet
    {
      WalledEffect(g, AdditionalWalls, ExtraWalls[i].x, ExtraWalls[i].y);
    }
    WalledNoPellets(g3, ExtraWalls);
  }

  /** The level-5 list only names cells that are already walls, so it has no effect. */
  lemma ExtraWallsHaveNoEffect(level: int)
    requires level >= 5
    ensures LevelLayout(level) == LevelLayout(3)
  {
    BaseListedCells();
    ExtraWallsOf(BaseLayout());
  }
}
