/**
 * The A* search of GameMap.findPath: walks on the 4-connected grid, the
 * node records of the open and closed sets, the invariants the search
 * keeps, and the two inner scans of its loop.
 */
module Search {
  import opened Wrappers
  import opened Geometry
  import opened Layout

  /** A cell a path may enter: not a wall, and not the ghost door unless doors are allowed. */
  predicate Passable(g: Grid, canPassDoor: bool, c: Cell)
  {
    CodeAt(g, c) != Wall && (canPassDoor || CodeAt(g, c) != Door)
  }

  /** A walk from s to t: adjacent steps, every entered cell passable (the start cell itself may be anything). */
  ghost predicate IsWalk(g: Grid, canPassDoor: bool, s: Cell, t: Cell, w: seq<Cell>)
  {
    |w| >= 1 && w[0] == s && w[|w| - 1] == t &&
    (forall i :: 0 <= i < |w| - 1 ==> Adjacent(w[i], w[i + 1])) &&
    (forall i :: 1 <= i < |w| ==> Passable(g, canPassDoor, w[i]))
  }

  /**
   * A path as findPath returns it: cell centres, the first one next to the
   * start cell, each next to the one before, all passable, the last one in
   * the target cell.
   */
  ghost predicate IsRoute(g: Grid, canPassDoor: bool, s: Cell, t: Cell, path: seq<Point>)
  {
    |path| >= 1 &&
    (forall i :: 0 <= i < |path| ==> path[i] == Center(CellOf(path[i])) && Passable(g, canPassDoor, CellOf(path[i]))) &&
    Adjacent(s, CellOf(path[0])) &&
    (forall i :: 0 <= i < |path| - 1 ==> Adjacent(CellOf(path[i]), CellOf(path[i + 1]))) &&
    CellOf(path[|path| - 1]) == t
  }

  /** The heuristic of findPath: Manhattan distance. */
  function Heuristic(a: Cell, b: Cell): (r: nat)
    ensures r == 0 <==> a == b
  {
    Manhattan(a, b)
  }

  /** The heuristic is consistent: one step changes it by at most one. */
  lemma HeuristicConsistent(a: Cell, b: Cell, t: Cell)
    requires Adjacent(a, b)
    ensures Heuristic(a, t) <= Heuristic(b, t) + 1
  {
  }

  /** The heuristic never overestimates: every walk is at least as long as the Manhattan distance. */
  lemma {:induction false} HeuristicAdmissible(g: Grid, canPassDoor: bool, s: Cell, t: Cell, w: seq<Cell>)
    requires IsWalk(g, canPassDoor, s, t, w)
    ensures Heuristic(s, t) <= |w| - 1
  {
    SuffixBound(w, 0);
  }

  lemma {:induction false} SuffixBound(w: seq<Cell>, i: nat)
    requires i < |w|
    requires forall j :: 0 <= j < |w| - 1 ==> Adjacent(w[j], w[j + 1])
    ensures Manhattan(w[i], w[|w| - 1]) <= |w| - 1 - i
    decreases |w| - i
  {
    if i < |w| - 1 {
      SuffixBound(w, i + 1);
      ManhattanTriangle(w[i], w[i + 1], w[|w| - 1]);
    }
  }

  /** An A* node: its cell, cost so far, heuristic, their sum, and the parent's cell. */
  datatype Node = Node(cell: Cell, g: nat, h: nat, f: nat, parent: Option<Cell>)

  function StartNode(s: Cell, t: Cell): Node
  {
    Node(s, 0, Heuristic(s, t), Heuristic(s, t), None)
  }

  ghost predicate Labelled(t: Cell, n: Node)
  {
    n.h == Heuristic(n.cell, t) && n.f == n.g + n.h
  }

  /** The start node, or a passable cell whose closed parent is adjacent and one step cheaper. */
  ghost predicate NodeOk(g: Grid, canPassDoor: bool, s: Cell, closed: map<Cell, Node>, n: Node)
  {
    if n.parent.None? then n.cell == s && n.g == 0
    else
      n.parent.value in closed && Adjacent(n.parent.value, n.cell) &&
      n.g == closed[n.parent.value].g + 1 && Passable(g, canPassDoor, n.cell)
  }

  /** No walk from s to c is shorter than d steps. */
  ghost predicate Optimal(g: Grid, canPassDoor: bool, s: Cell, c: Cell, d: nat)
  {
    forall w :: IsWalk(g, canPassDoor, s, c, w) ==> d <= |w| - 1
  }

  ghost predicate InOpenWithin(open: seq<Node>, c: Cell, d: nat)
  {
    exists i :: 0 <= i < |open| && open[i].cell == c && open[i].g <= d
  }

  /** The neighbour of closed cell c in direction dir is closed, or open at cost at most one more than c. */
  ghost predicate CoveredDir(g: Grid, canPassDoor: bool, open: seq<Node>, closed: map<Cell, Node>, c: Cell, dir: Direction)
    requires c in closed
  {
    Passable(g, canPassDoor, Step(c, dir)) ==>
      Step(c, dir) in closed || InOpenWithin(open, Step(c, dir), closed[c].g + 1)
  }

  ghost predicate OpenOk(g: Grid, canPassDoor: bool, s: Cell, t: Cell, open: seq<Node>, closed: map<Cell, Node>)
  {
    (forall i, j :: 0 <= i < j < |open| ==> open[i].cell != open[j].cell) &&
    (forall i :: 0 <= i < |open| ==>
       open[i].cell !in closed && Labelled(t, open[i]) && NodeOk(g, canPassDoor, s, closed, open[i]))
  }

  ghost predicate ClosedOk(g: Grid, canPassDoor: bool, s: Cell, closed: map<Cell, Node>)
  {
    forall c :: c in closed ==>
      closed[c].cell == c && NodeOk(g, canPassDoor, s, closed, closed[c]) &&
      Optimal(g, canPassDoor, s, c, closed[c].g)
  }

  /** Every closed node sits under its own cell and has a valid parent link. */
  ghost predicate Parents(g: Grid, canPassDoor: bool, s: Cell, closed: map<Cell, Node>)
  {
    forall c :: c in closed ==> closed[c].cell == c && NodeOk(g, canPassDoor, s, closed, closed[c])
  }

  /**
   * What holds at the head of the search loop once `done` is the set of
   * closed cells whose neighbours are all accounted for.
   */
  ghost predicate Frame(g: Grid, canPassDoor: bool, s: Cell, t: Cell, open: seq<Node>, closed: map<Cell, Node>)
  {
    OpenOk(g, canPassDoor, s, t, open, closed) && ClosedOk(g, canPassDoor, s, closed) &&
    (closed == map[] ==> open == [StartNode(s, t)]) &&
    (closed != map[] ==> s in closed) &&
    t !in closed
  }

  /** The loop invariant of findPath. */
  ghost predicate Inv(g: Grid, canPassDoor: bool, s: Cell, t: Cell, open: seq<Node>, closed: map<Cell, Node>)
  {
    Frame(g, canPassDoor, s, t, open, closed) &&
    forall c, dir :: c in closed ==> CoveredDir(g, canPassDoor, open, closed, c, dir)
  }

  /** The invariant while the neighbours of `cur` are visited; the first m directions of the wheel are done. */
  ghost predicate PartialInv(g: Grid, canPassDoor: bool, s: Cell, t: Cell, open: seq<Node>, closed: map<Cell, Node>, cur: Node, m: nat)
  {
    Frame(g, canPassDoor, s, t, open, closed) &&
    cur.cell in closed && closed[cur.cell] == cur && m <= 4 &&
    (forall c, dir :: c in closed && c != cur.cell ==> CoveredDir(g, canPassDoor, open, closed, c, dir)) &&
    (forall k :: 0 <= k < m ==> CoveredDir(g, canPassDoor, open, closed, cur.cell, Wheel[k]))
  }

  /** The cells a closed set can hold: the cells of the layout and the start cell. */
  ghost function Universe(g: Grid, s: Cell): set<Cell>
  {
    (set y, x | 0 <= y < |g| && 0 <= x < |g[y]| :: Cell(x, y)) + {s}
  }

  lemma ClosedInUniverse(g: Grid, canPassDoor: bool, s: Cell, closed: map<Cell, Node>)
    requires ClosedOk(g, canPassDoor, s, closed)
    ensures closed.Keys <= Universe(g, s)
  {
    forall c | c in closed
      ensures c in Universe(g, s)
    {
      if c != s {
        assert InBounds(g, c.x, c.y);
      }
    }
  }

  /** A cell where a walk leaves the closed set. */
  lemma FirstOutside(w: seq<Cell>, closed: map<Cell, Node>) returns (i: nat)
    requires |w| >= 1 && w[0] in closed && w[|w| - 1] !in closed
    ensures 0 < i < |w| && w[i] !in closed && w[i - 1] in closed
  {
    i := 1;
    while w[i] in closed
      invariant 0 < i < |w| && w[i - 1] in closed
      decreases |w| - i
    {
      i := i + 1;
    }
  }

  lemma WalkPrefix(g: Grid, canPassDoor: bool, s: Cell, t: Cell, w: seq<Cell>, i: nat)
    requires IsWalk(g, canPassDoor, s, t, w) && 0 < i <= |w|
    ensures IsWalk(g, canPassDoor, s, w[i - 1], w[..i])
  {
  }

  /** A passable, unclosed cell next to a fully covered closed cell is open, at most one step dearer. */
  lemma CoveredNext(g: Grid, canPassDoor: bool, open: seq<Node>, closed: map<Cell, Node>, p: Cell, n: Cell)
    requires p in closed && forall dir :: CoveredDir(g, canPassDoor, open, closed, p, dir)
    requires Adjacent(p, n) && Passable(g, canPassDoor, n) && n !in closed
    ensures InOpenWithin(open, n, closed[p].g + 1)
  {
    AdjacentIsStep(p, n);
    var dir :| Step(p, dir) == n;
    assert CoveredDir(g, canPassDoor, open, closed, p, dir);
  }

  /** The node popped from the open set (least f) already has an optimal cost. */
  lemma PopOptimal(g: Grid, canPassDoor: bool, s: Cell, t: Cell, open: seq<Node>, closed: map<Cell, Node>, k: nat)
    requires Inv(g, canPassDoor, s, t, open, closed)
    requires k < |open| && forall i :: 0 <= i < |open| ==> open[k].f <= open[i].f
    ensures Optimal(g, canPassDoor, s, open[k].cell, open[k].g)
  {
    var cur := open[k];
    forall w | IsWalk(g, canPassDoor, s, cur.cell, w)
      ensures cur.g <= |w| - 1
    {
      if closed == map[] {
        assert open == [StartNode(s, t)];
      } else {
        var i := FirstOutside(w, closed);
        var prev := w[i - 1];
        WalkPrefix(g, canPassDoor, s, cur.cell, w, i);
        assert closed[prev].g <= i - 1;
        CoveredNext(g, canPassDoor, open, closed, prev, w[i]);
        var j :| 0 <= j < |open| && open[j].cell == w[i] && open[j].g <= closed[prev].g + 1;
        SuffixBound(w, i);
        ManhattanTriangle(w[i], cur.cell, t);
        assert open[k].f <= open[j].f;
      }
    }
  }

  /** When the open set runs empty the target cannot be reached at all. */
  lemma Exhausted(g: Grid, canPassDoor: bool, s: Cell, t: Cell, closed: map<Cell, Node>)
    requires Inv(g, canPassDoor, s, t, [], closed)
    ensures s != t
    ensures forall w :: !IsWalk(g, canPassDoor, s, t, w)
  {
    forall w | IsWalk(g, canPassDoor, s, t, w)
      ensures false
    {
      var i := FirstOutside(w, closed);
      CoveredNext(g, canPassDoor, [], closed, w[i - 1], w[i]);
    }
  }

  /** The open set with its k-th node taken out. */
  function Remove(open: seq<Node>, k: nat): (r: seq<Node>)
    requires k < |open|
    ensures |r| == |open| - 1
    ensures forall i :: 0 <= i < |r| ==> r[i] == if i < k then open[i] else open[i + 1]
  {
    open[..k] + open[k + 1..]
  }

  /** Adding a fresh key to the closed map keeps every node's parent facts. */
  lemma NodeOkGrow(g: Grid, canPassDoor: bool, s: Cell, closed: map<Cell, Node>, c: Cell, node: Node, n: Node)
    requires c !in closed && NodeOk(g, canPassDoor, s, closed, n)
    ensures NodeOk(g, canPassDoor, s, closed[c := node], n)
  {
    if n.parent.Some? {
      assert n.parent.value != c;
    }
  }

  lemma PopOpen(g: Grid, canPassDoor: bool, s: Cell, t: Cell, open: seq<Node>, closed: map<Cell, Node>, k: nat)
    requires OpenOk(g, canPassDoor, s, t, open, closed) && k < |open|
    ensures OpenOk(g, canPassDoor, s, t, Remove(open, k), closed[open[k].cell := open[k]])
  {
    var cur := open[k];
    var open' := Remove(open, k);
    forall i | 0 <= i < |open'|
      ensures open'[i].cell !in closed[cur.cell := cur]
      ensures NodeOk(g, canPassDoor, s, closed[cur.cell := cur], open'[i])
    {
      var j := if i < k then i else i + 1;
      assert open'[i] == open[j] && open[j].cell != cur.cell;
      NodeOkGrow(g, canPassDoor, s, closed, cur.cell, cur, open[j]);
    }
  }

  lemma PopClosed(g: Grid, canPassDoor: bool, s: Cell, t: Cell, open: seq<Node>, closed: map<Cell, Node>, k: nat)
    requires OpenOk(g, canPassDoor, s, t, open, closed) && ClosedOk(g, canPassDoor, s, closed) && k < |open|
    requires Optimal(g, canPassDoor, s, open[k].cell, open[k].g)
    ensures ClosedOk(g, canPassDoor, s, closed[open[k].cell := open[k]])
  {
    var cur := open[k];
    var closed' := closed[cur.cell := cur];
    forall c | c in closed'
      ensures closed'[c].cell == c && NodeOk(g, canPassDoor, s, closed', closed'[c])
      ensures Optimal(g, canPassDoor, s, c, closed'[c].g)
    {
      if c == cur.cell {
        NodeOkGrow(g, canPassDoor, s, closed, cur.cell, cur, cur);
      } else {
        assert closed'[c] == closed[c];
        NodeOkGrow(g, canPassDoor, s, closed, cur.cell, cur, closed[c]);
      }
    }
  }

  lemma PopCovered(g: Grid, canPassDoor: bool, s: Cell, t: Cell, open: seq<Node>, closed: map<Cell, Node>, k: nat, c: Cell, dir: Direction)
    requires k < |open| && open[k].cell !in closed && c in closed
    requires CoveredDir(g, canPassDoor, open, closed, c, dir)
    ensures CoveredDir(g, canPassDoor, Remove(open, k), closed[open[k].cell := open[k]], c, dir)
  {
    var cur := open[k];
    var closed' := closed[cur.cell := cur];
    var open' := Remove(open, k);
    var n := Step(c, dir);
    assert closed'[c] == closed[c];
    if Passable(g, canPassDoor, n) && n !in closed' {
      var j :| 0 <= j < |open| && open[j].cell == n && open[j].g <= closed[c].g + 1;
      var j' := if j < k then j else j - 1;
      assert open'[j'] == open[j];
    }
  }

  /** Closing the popped node (when it is not the target) keeps everything but its own coverage. */
  lemma PopStep(g: Grid, canPassDoor: bool, s: Cell, t: Cell, open: seq<Node>, closed: map<Cell, Node>, k: nat)
    requires Inv(g, canPassDoor, s, t, open, closed)
    requires k < |open| && forall i :: 0 <= i < |open| ==> open[k].f <= open[i].f
    requires open[k].cell != t
    ensures PartialInv(g, canPassDoor, s, t, Remove(open, k), closed[open[k].cell := open[k]], open[k], 0)
  {
    PopFrame(g, canPassDoor, s, t, open, closed, k);
    PopCoveredAll(g, canPassDoor, s, t, open, closed, k, closed[open[k].cell := open[k]]);
  }

  lemma PopFrame(g: Grid, canPassDoor: bool, s: Cell, t: Cell, open: seq<Node>, closed: map<Cell, Node>, k: nat)
    requires Inv(g, canPassDoor, s, t, open, closed)
    requires k < |open| && forall i :: 0 <= i < |open| ==> open[k].f <= open[i].f
    requires open[k].cell != t
    ensures Frame(g, canPassDoor, s, t, Remove(open, k), closed[open[k].cell := open[k]])
  {
    PopOptimal(g, canPassDoor, s, t, open, closed, k);
    PopOpen(g, canPassDoor, s, t, open, closed, k);
    PopClosed(g, canPassDoor, s, t, open, closed, k);
    if closed == map[] {
      assert open == [StartNode(s, t)];
    }
  }

  lemma PopCoveredAll(g: Grid, canPassDoor: bool, s: Cell, t: Cell, open: seq<Node>, closed: map<Cell, Node>, k: nat, closed': map<Cell, Node>)
    requires Inv(g, canPassDoor, s, t, open, closed) && k < |open|
    requires closed' == closed[open[k].cell := open[k]]
    ensures forall c, dir :: c in closed' && c != open[k].cell ==>
      CoveredDir(g, canPassDoor, Remove(open, k), closed', c, dir)
  {
    forall c, dir | c in closed' && c != open[k].cell
      ensures CoveredDir(g, canPassDoor, Remove(open, k), closed', c, dir)
    {
      PopCovered(g, canPassDoor, s, t, open, closed, k, c, dir);
    }
  }

  /** Position of the first open node on cell c, or |open| when there is none. */
  function IndexOfCell(open: seq<Node>, c: Cell): (i: nat)
    ensures i <= |open|
    ensures i < |open| ==> open[i].cell == c
    ensures forall j :: 0 <= j < i ==> open[j].cell != c
  {
    if open == [] then 0
    else if open[0].cell == c then 0
    else 1 + IndexOfCell(open[1..], c)
  }

  /**
   * What findPath does with a new neighbour node: add it, or, if its cell is
   * already open, lower that node's cost and re-parent it when the new cost
   * is smaller.
   */
  function Relaxed(open: seq<Node>, nb: Node): seq<Node>
  {
    var i := IndexOfCell(open, nb.cell);
    if i == |open| then open + [nb]
    else if nb.g < open[i].g then open[i := open[i].(g := nb.g, f := nb.g + open[i].h, parent := nb.parent)]
    else open
  }

  /** open2 keeps every node of open at its place, on its cell, at no higher cost. */
  ghost predicate Persists(open: seq<Node>, open2: seq<Node>)
  {
    |open2| >= |open| &&
    forall j :: 0 <= j < |open| ==> open2[j].cell == open[j].cell && open2[j].g <= open[j].g
  }

  lemma CoveredPersists(g: Grid, canPassDoor: bool, open: seq<Node>, open2: seq<Node>, closed: map<Cell, Node>, c: Cell, dir: Direction)
    requires c in closed && Persists(open, open2)
    requires CoveredDir(g, canPassDoor, open, closed, c, dir)
    ensures CoveredDir(g, canPassDoor, open2, closed, c, dir)
  {
    var n := Step(c, dir);
    if Passable(g, canPassDoor, n) && n !in closed {
      var j :| 0 <= j < |open| && open[j].cell == n && open[j].g <= closed[c].g + 1;
      assert open2[j].cell == n && open2[j].g <= closed[c].g + 1;
    }
  }

  /** Relaxing a passable, unclosed neighbour of a closed node keeps the open set sound and puts the neighbour in it. */
  lemma RelaxOpen(g: Grid, canPassDoor: bool, s: Cell, t: Cell, open: seq<Node>, closed: map<Cell, Node>, cur: Node, nb: Node)
    requires OpenOk(g, canPassDoor, s, t, open, closed)
    requires cur.cell in closed && closed[cur.cell] == cur
    requires nb.cell !in closed && Passable(g, canPassDoor, nb.cell) && Adjacent(cur.cell, nb.cell)
    requires nb == Node(nb.cell, cur.g + 1, Heuristic(nb.cell, t), cur.g + 1 + Heuristic(nb.cell, t), Some(cur.cell))
    ensures OpenOk(g, canPassDoor, s, t, Relaxed(open, nb), closed)
    ensures Persists(open, Relaxed(open, nb))
    ensures InOpenWithin(Relaxed(open, nb), nb.cell, cur.g + 1)
  {
    var open2 := Relaxed(open, nb);
    var i := IndexOfCell(open, nb.cell);
    assert NodeOk(g, canPassDoor, s, closed, nb);
    if i == |open| {
      assert open2[|open|] == nb;
    } else {
      assert open2[i].g <= nb.g;
    }
  }

  lemma RelaxVisit(g: Grid, canPassDoor: bool, s: Cell, t: Cell, open: seq<Node>, closed: map<Cell, Node>, cur: Node, m: nat, nb: Node)
    requires PartialInv(g, canPassDoor, s, t, open, closed, cur, m) && m < 4
    requires nb.cell == Step(cur.cell, Wheel[m]) && nb.cell !in closed && Passable(g, canPassDoor, nb.cell)
    requires nb == Node(nb.cell, cur.g + 1, Heuristic(nb.cell, t), cur.g + 1 + Heuristic(nb.cell, t), Some(cur.cell))
    ensures PartialInv(g, canPassDoor, s, t, Relaxed(open, nb), closed, cur, m + 1)
  {
    var open2 := Relaxed(open, nb);
    RelaxOpen(g, canPassDoor, s, t, open, closed, cur, nb);
    forall c, dir | c in closed && c != cur.cell
      ensures CoveredDir(g, canPassDoor, open2, closed, c, dir)
    {
      CoveredPersists(g, canPassDoor, open, open2, closed, c, dir);
    }
    forall k | 0 <= k < m + 1
      ensures CoveredDir(g, canPassDoor, open2, closed, cur.cell, Wheel[k])
    {
      if k < m {
        CoveredPersists(g, canPassDoor, open, open2, closed, cur.cell, Wheel[k]);
      }
    }
  }

  lemma RelaxSkip(g: Grid, canPassDoor: bool, s: Cell, t: Cell, open: seq<Node>, closed: map<Cell, Node>, cur: Node, m: nat)
    requires PartialInv(g, canPassDoor, s, t, open, closed, cur, m) && m < 4
    requires Step(cur.cell, Wheel[m]) in closed || !Passable(g, canPassDoor, Step(cur.cell, Wheel[m]))
    ensures PartialInv(g, canPassDoor, s, t, open, closed, cur, m + 1)
  {
    assert CoveredDir(g, canPassDoor, open, closed, cur.cell, Wheel[m]);
  }

  /** After all four directions the popped node is fully covered. */
  lemma PartialInvDone(g: Grid, canPassDoor: bool, s: Cell, t: Cell, open: seq<Node>, closed: map<Cell, Node>, cur: Node)
    requires PartialInv(g, canPassDoor, s, t, open, closed, cur, 4)
    ensures Inv(g, canPassDoor, s, t, open, closed)
  {
    forall c, dir | c in closed
      ensures CoveredDir(g, canPassDoor, open, closed, c, dir)
    {
      if c == cur.cell {
        WheelComplete(dir);
        var k :| 0 <= k < 4 && Wheel[k] == dir;
      }
    }
  }

  /** The start of the search satisfies the invariant. */
  lemma InitialInv(g: Grid, canPassDoor: bool, s: Cell, t: Cell)
    ensures Inv(g, canPassDoor, s, t, [StartNode(s, t)], map[])
  {
  }

  /** The inner scan for the open node of least f; ties go to the earliest node. */
  method LowestIndex(open: seq<Node>) returns (k: nat)
    requires |open| > 0
    ensures k < |open|
    ensures forall i :: 0 <= i < |open| ==> open[k].f <= open[i].f
    ensures forall i :: 0 <= i < k ==> open[i].f > open[k].f
  {
    k := 0;
    var i := 0;
    while i < |open|
      invariant 0 <= i <= |open| && k < |open| && (k < i || k == 0)
      invariant forall j :: 0 <= j < i ==> open[k].f <= open[j].f
      invariant forall j :: 0 <= j < k ==> open[j].f > open[k].f
    {
      if open[i].f < open[k].f {
        k := i;
      }
      i := i + 1;
    }
  }

  /** The inner scan that looks the neighbour up in the open set and updates or appends it. */
  method Relax(open: seq<Node>, nb: Node) returns (r: seq<Node>)
    ensures r == Relaxed(open, nb)
  {
    var isInOpenSet := false;
    r := open;
    var i := 0;
    while i < |r|
      invariant 0 <= i <= |r| && r == open
      invariant forall j :: 0 <= j < i ==> r[j].cell != nb.cell
    {
      if r[i].cell == nb.cell {
        isInOpenSet := true;
        if nb.g < r[i].g {
          r := r[i := r[i].(g := nb.g, f := nb.g + r[i].h, parent := nb.parent)];
        }
        break;
      }
      i := i + 1;
    }
    if !isInOpenSet {
      r := r + [nb];
    }
  }

  /** The reversal findPath applies to its backwards list of waypoints. */
  function Reversed<T>(s: seq<T>): (r: seq<T>)
    ensures |r| == |s|
  {
    if s == [] then [] else [s[|s| - 1]] + Reversed(s[..|s| - 1])
  }

  lemma ReversedPush<T>(s: seq<T>, x: T)
    ensures Reversed(s + [x]) == [x] + Reversed(s)
  {
    assert (s + [x])[..|s|] == s;
  }

  function Centers(cells: seq<Cell>): (r: seq<Point>)
    ensures |r| == |cells|
    ensures forall i :: 0 <= i < |cells| ==> r[i] == Center(cells[i])
  {
    if cells == [] then [] else [Center(cells[0])] + Centers(cells[1..])
  }

  /** A chain of cells after `from` leading to t, each adjacent to the one before and passable. */
  ghost predicate Chain(g: Grid, canPassDoor: bool, from: Cell, t: Cell, route: seq<Cell>)
  {
    (route == [] ==> from == t) &&
    (route != [] ==>
       Adjacent(from, route[0]) && route[|route| - 1] == t &&
       (forall i :: 0 <= i < |route| - 1 ==> Adjacent(route[i], route[i + 1])) &&
       (forall i :: 0 <= i < |route| ==> Passable(g, canPassDoor, route[i])))
  }

  lemma ChainPush(g: Grid, canPassDoor: bool, p: Cell, from: Cell, t: Cell, route: seq<Cell>)
    requires Chain(g, canPassDoor, from, t, route)
    requires Adjacent(p, from) && Passable(g, canPassDoor, from)
    ensures Chain(g, canPassDoor, p, t, [from] + route)
  {
  }

  /** The centres of a non-empty chain from s form a route. */
  lemma ChainRoute(g: Grid, canPassDoor: bool, s: Cell, t: Cell, route: seq<Cell>)
    requires Chain(g, canPassDoor, s, t, route) && route != []
    ensures IsRoute(g, canPassDoor, s, t, Centers(route))
  {
    var path := Centers(route);
    forall i | 0 <= i < |path|
      ensures CellOf(path[i]) == route[i]
    {
      assert path[i] == Center(route[i]);
    }
  }

  /** A non-empty chain from s, with s in front, is a walk from s one cell longer. */
  lemma ChainWalk(g: Grid, canPassDoor: bool, s: Cell, t: Cell, route: seq<Cell>)
    requires Chain(g, canPassDoor, s, t, route) && route != []
    ensures IsWalk(g, canPassDoor, s, t, [s] + route)
  {
    var w := [s] + route;
    assert forall i :: 1 <= i < |w| ==> w[i] == route[i - 1];
  }
}
