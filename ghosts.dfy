/**
 * The ghosts: the four personalities, their targets, the direction rules,
 * and the Ghost object with its mode machine, timers, stuck detector and
 * house handling.
 */
module Ghosts {
  import opened Wrappers
  import opened Geometry
  import opened Layout
  import opened Collision
  import opened Search
  import opened MazeMap

  /** Blinky, Pinky, Inky and Clyde: the four subclasses of Ghost. */
  datatype Kind = Blinky | Pinky | Inky | Clyde

  datatype Mode = Scatter | Chase | Frightened

  /** What a ghost reads of Pac-Man: position and facing. */
  datatype PlayerView = PlayerView(x: real, y: real, direction: Direction)

  /** The random draws one ghost update may use. */
  datatype GhostDice = GhostDice(stuckPick: nat, keep: real, pick: nat, blockedPick: nat, rolls: seq<Cell>, bob: real)

  /** The fields manageTimers reads, as they stood before a tick. */
  datatype TimerState = TimerState(mode: Mode, modeTimer: real, frightened: bool, frightenedTimer: real, blinking: bool,
                                   blinkTimer: real, previousMode: Mode, eaten: bool, speed: real,
                                   recovering: bool, recoverTimer: real)

  /** The scatter/chase and fright clock of a ghost after a tick. */
  datatype ModeClock = ModeClock(mode: Mode, modeTimer: real, frightenedTimer: real, blinking: bool, blinkTimer: real,
                                 previousMode: Mode)

  /** The fright flag and speeds of a ghost after a tick. */
  datatype FrightState = FrightState(frightened: bool, speed: real, baseSpeed: real, frightenedTimer: real)

  /** The recovery flag and timer of a ghost after a tick. */
  datatype Recovery = Recovery(recovering: bool, recoverTimer: real)

  /** The stuck detector's view of a ghost: where it is, the count of short moves and the last recorded position. */
  datatype StuckState = StuckState(at: Point, count: int, last: Point)

  /** Blinky is the fastest ghost. */
  function BaseSpeedOf(k: Kind): (r: real)
    ensures r > 0.0
    ensures k == Blinky <==> r == 0.09
  {
    if k == Blinky then 0.09 else 0.08
  }

  /** getScatterTarget: each ghost's corner, two cells in from the maze edges. */
  function ScatterTarget(k: Kind): (p: Point)
  {
    match k
    case Blinky => Point((Width - 2) as real, 2.0)
    case Pinky => Point(2.0, 2.0)
    case Inky => Point((Width - 2) as real, (Height - 2) as real)
    case Clyde => Point(2.0, (Height - 2) as real)
  }

  /** The four corners are distinct, each two cells in from a horizontal and a vertical edge. */
  lemma ScatterCorners(k: Kind, j: Kind)
    ensures k != j ==> ScatterTarget(k) != ScatterTarget(j)
    ensures ScatterTarget(k).x == 2.0 || ScatterTarget(k).x == (Width - 2) as real
    ensures ScatterTarget(k).y == 2.0 || ScatterTarget(k).y == (Height - 2) as real
  {
  }

  /** getInitialWaitTime in milliseconds. */
  function InitialWaitTime(k: Kind): (r: real)
    ensures r >= 0.0 && (r == 0.0 <==> k == Blinky)
  {
    match k
    case Blinky => 0.0
    case Pinky => 3000.0
    case Inky => 7000.0
    case Clyde => 5000.0
  }

  /** switchMode: scatter becomes chase, anything else becomes scatter. */
  function NextMode(m: Mode): (r: Mode)
    ensures r != Frightened
    ensures r == Chase <==> m == Scatter
  {
    if m == Scatter then Chase else Scatter
  }

  /** How long switchMode keeps the new mode: 20 s of chase, 7 s of scatter. */
  function ModeLength(m: Mode): real
  {
    if m == Chase then 20000.0 else 7000.0
  }

  /** Two switches from scatter or chase come back to the same mode. */
  lemma NextModeAlternates(m: Mode)
    requires m != Frightened
    ensures NextMode(NextMode(m)) == m
  {
  }

  /** The point n cells ahead of Pac-Man in the direction it faces. */
  function Ahead(p: PlayerView, n: real): Point
  {
    Point(p.x + DeltaX(p.direction) as real * n, p.y + DeltaY(p.direction) as real * n)
  }

  /** calculateChaseTarget of the four subclasses. */
  function ChaseTarget(sqrt: real -> real, k: Kind, self: Point, player: PlayerView, blinky: Point): Point
  {
    match k
    case Blinky => Point(player.x, player.y)
    case Pinky =>
      var a := Ahead(player, 4.0);
      if player.direction == Up then Point(a.x - 4.0, a.y) else a
    case Inky =>
      var m := Ahead(player, 2.0);
      Point(m.x + (m.x - blinky.x), m.y + (m.y - blinky.y))
    case Clyde =>
      if sqrt(Square(self.x - player.x) + Square(self.y - player.y)) > 8.0 then Point(player.x, player.y)
      else ScatterTarget(Clyde)
  }

  /** Blinky chases Pac-Man itself. */
  lemma BlinkyTarget(sqrt: real -> real, self: Point, player: PlayerView, blinky: Point)
    ensures ChaseTarget(sqrt, Blinky, self, player, blinky) == Point(player.x, player.y)
  {
  }

  /** Pinky aims four cells ahead of Pac-Man; facing up, also four cells to the left. */
  lemma PinkyTarget(sqrt: real -> real, self: Point, player: PlayerView, blinky: Point)
    ensures var r := ChaseTarget(sqrt, Pinky, self, player, blinky);
      match player.direction
      case Up => r == Point(player.x - 4.0, player.y - 4.0)
      case Down => r == Point(player.x, player.y + 4.0)
      case Left => r == Point(player.x - 4.0, player.y)
      case Right => r == Point(player.x + 4.0, player.y)
  {
  }

  /** Inky doubles the vector from Blinky to the point two cells ahead of Pac-Man. */
  lemma InkyTarget(sqrt: real -> real, self: Point, player: PlayerView, blinky: Point)
    ensures var r := ChaseTarget(sqrt, Inky, self, player, blinky);
      var ax := player.x + 2.0 * DeltaX(player.direction) as real;
      var ay := player.y + 2.0 * DeltaY(player.direction) as real;
      r == Point(2.0 * ax - blinky.x, 2.0 * ay - blinky.y)
  {
  }

  /** Clyde chases Pac-Man when more than 8 cells away, otherwise heads for his corner. */
  lemma ClydeTarget(sqrt: real -> real, self: Point, player: PlayerView, blinky: Point)
    requires IsSqrt(sqrt)
    ensures var d2 := Square(self.x - player.x) + Square(self.y - player.y);
      ChaseTarget(sqrt, Clyde, self, player, blinky) ==
        if d2 > 64.0 then Point(player.x, player.y) else ScatterTarget(Clyde)
  {
    var d2 := Square(self.x - player.x) + Square(self.y - player.y);
    SumOfSquaresNonNegative(self.x - player.x, self.y - player.y);
    SqrtGreater(sqrt, d2, 8.0);
  }

  /** A direction the scan accepts: not the skipped one, and leading to a passable cell. */
  predicate Allowed(g: Grid, c: Cell, d: Direction, skip: Option<Direction>, canPassDoor: bool)
  {
    skip != Some(d) && Passable(g, canPassDoor, Step(c, d))
  }

  /** The accepted directions of ds, in the order of ds. */
  function Keep(g: Grid, c: Cell, ds: seq<Direction>, skip: Option<Direction>, canPassDoor: bool): (r: seq<Direction>)
    ensures |r| <= |ds|
  {
    if ds == [] then []
    else
      Keep(g, c, ds[..|ds| - 1], skip, canPassDoor) +
      (if Allowed(g, c, ds[|ds| - 1], skip, canPassDoor) then [ds[|ds| - 1]] else [])
  }

  lemma {:induction false} KeepMembers(g: Grid, c: Cell, ds: seq<Direction>, skip: Option<Direction>, canPassDoor: bool, d: Direction)
    ensures d in Keep(g, c, ds, skip, canPassDoor) <==> d in ds && Allowed(g, c, d, skip, canPassDoor)
  {
    if ds != [] {
      var n := |ds| - 1;
      KeepMembers(g, c, ds[..n], skip, canPassDoor, d);
      assert ds == ds[..n] + [ds[n]];
    }
  }

  /** getAllPossibleDirections from cell c. */
  function AllPossibleDirections(g: Grid, c: Cell): seq<Direction>
  {
    Keep(g, c, Wheel, None, true)
  }

  /** getAllPossibleDirections yields exactly the directions whose neighbour is not a wall. */
  lemma AllPossibleDirectionsExact(g: Grid, c: Cell, d: Direction)
    ensures d in AllPossibleDirections(g, c) <==> CodeAt(g, Step(c, d)) != Wall
  {
    KeepMembers(g, c, Wheel, None, true, d);
    WheelComplete(d);
  }

  /** getPossibleDirections from cell c for a ghost facing `facing`. */
  function PossibleDirections(g: Grid, c: Cell, facing: Direction, eaten: bool): seq<Direction>
  {
    var k := Keep(g, c, Wheel, Some(Opposite(facing)), eaten);
    if k == [] then [Opposite(facing)] else k
  }

  /**
   * getPossibleDirections is never empty; turning back happens only when it
   * is the sole option; every other direction leads to a cell that is
   * neither a wall nor (unless eaten) the ghost door, and every such
   * direction is offered.
   */
  lemma PossibleDirectionsRule(g: Grid, c: Cell, facing: Direction, eaten: bool)
    ensures var r := PossibleDirections(g, c, facing, eaten);
      |r| >= 1 &&
      (Opposite(facing) in r ==> r == [Opposite(facing)]) &&
      (r == [Opposite(facing)] <==> forall d :: d != Opposite(facing) ==> !Passable(g, eaten, Step(c, d))) &&
      forall d :: d != Opposite(facing) ==> (d in r <==> Passable(g, eaten, Step(c, d)))
  {
    var k := Keep(g, c, Wheel, Some(Opposite(facing)), eaten);
    forall d
      ensures d in k <==> d != Opposite(facing) && Passable(g, eaten, Step(c, d))
    {
      KeepMembers(g, c, Wheel, Some(Opposite(facing)), eaten, d);
      WheelComplete(d);
    }
    if k != [] {
      assert k[0] in k;
    }
  }

  /** The score getBestDirection gives direction d: distance to the target from two cells ahead, less 0.7 for going straight on. */
  function StepScore(sqrt: real -> real, from: Cell, facing: Direction, target: Point, d: Direction): real
  {
    var tx := from.x as real + 0.5 + 2.0 * DeltaX(d) as real;
    var ty := from.y as real + 0.5 + 2.0 * DeltaY(d) as real;
    sqrt(Square(tx - target.x) + Square(ty - target.y)) - (if d == facing then 0.7 else 0.0)
  }

  /** The first roll that lands off the walls (chooseRandomTarget), if any. */
  function FirstOpenRoll(g: Grid, rolls: seq<Cell>): (r: Option<Cell>)
    ensures r.Some? ==> r.value in rolls && CodeAt(g, r.value) != Wall
    ensures r.None? ==> forall i :: 0 <= i < |rolls| ==> CodeAt(g, rolls[i]) == Wall
  {
    if rolls == [] then None
    else
      var p := FirstOpenRoll(g, rolls[..|rolls| - 1]);
      if p.Some? then p
      else if CodeAt(g, rolls[|rolls| - 1]) != Wall then Some(rolls[|rolls| - 1])
      else None
  }

  /** The first open roll of a prefix stays the first open roll of any longer prefix. */
  lemma {:induction false} FirstOpenPrefix(g: Grid, rolls: seq<Cell>, a: nat, b: nat)
    requires a <= b <= |rolls| && FirstOpenRoll(g, rolls[..a]).Some?
    ensures FirstOpenRoll(g, rolls[..b]) == FirstOpenRoll(g, rolls[..a])
    decreases b - a
  {
    if a < b {
      FirstOpenPrefix(g, rolls, a, b - 1);
      assert rolls[..b][..b - 1] == rolls[..b - 1];
    }
  }

  /**
   * The path updatePath leaves for a ghost at `at` heading for `target`:
   * none when the target is closer than 4 (on squares, 16); otherwise the
   * first 10 waypoints of a shortest findPath route between their cells,
   * and none only when the cells coincide or no walk joins them.
   */
  ghost predicate PlannedPath(g: Grid, canPassDoor: bool, at: Point, target: Point, p: seq<Point>)
  {
    var s, t := CellOf(at), CellOf(target);
    var d2 := Square(at.x - target.x) + Square(at.y - target.y);
    (d2 < 16.0 ==> p == []) &&
    (p != [] ==>
       exists full :: IsRoute(g, canPassDoor, s, t, full) &&
         (forall w :: IsWalk(g, canPassDoor, s, t, w) ==> |full| <= |w| - 1) && p == Cut(full)) &&
    (d2 >= 16.0 && p == [] ==> s == t || forall w :: !IsWalk(g, canPassDoor, s, t, w))
  }

  /** The first 10 waypoints of a route, as updatePath keeps them. */
  function Cut(p: seq<Point>): (r: seq<Point>)
    ensures |r| <= 10 && (|p| <= 10 ==> r == p)
  {
    if |p| > 10 then p[..10] else p
  }

  /** Cutting findPath's route between the cells of two points at least 4 apart gives a planned path. */
  lemma PlannedCut(g: Grid, canPassDoor: bool, at: Point, target: Point, full: seq<Point>)
    requires Square(at.x - target.x) + Square(at.y - target.y) >= 16.0
    requires full != [] ==> IsRoute(g, canPassDoor, CellOf(at), CellOf(target), full)
    requires full != [] ==> forall w :: IsWalk(g, canPassDoor, CellOf(at), CellOf(target), w) ==> |full| <= |w| - 1
    requires full == [] ==> CellOf(at) == CellOf(target) || forall w :: !IsWalk(g, canPassDoor, CellOf(at), CellOf(target), w)
    ensures PlannedPath(g, canPassDoor, at, target, Cut(full))
  {
    if full != [] {
      assert Cut(full) != [];
    }
  }

  /** getBestDirection's score of every direction, from cell c facing `facing`. */
  function Scorer(sqrt: real -> real, c: Cell, facing: Direction, target: Point): Direction -> real
  {
    d => StepScore(sqrt, c, facing, target, d)
  }

  /** d scores no worse than any direction of dirs. */
  predicate LeastOf(score: Direction -> real, d: Direction, dirs: seq<Direction>)
  {
    forall e :: e in dirs ==> score(d) <= score(e)
  }

  /** The first direction of ds of least score, or `facing` when ds is empty. */
  function Best(score: Direction -> real, facing: Direction, ds: seq<Direction>): (r: Direction)
    ensures ds != [] ==> r in ds && LeastOf(score, r, ds)
    ensures ds == [] ==> r == facing
  {
    if |ds| <= 1 then (if ds == [] then facing else ds[0])
    else
      var b := Best(score, facing, ds[..|ds| - 1]);
      if score(ds[|ds| - 1]) < score(b) then ds[|ds| - 1] else b
  }

  /** A least-scoring direction with no least-scoring one before it is the one Best names. */
  lemma {:induction false} BestIsFirstLeast(score: Direction -> real, facing: Direction, ds: seq<Direction>, d: Direction, k: nat)
    requires ds == [] ==> d == facing
    requires ds != [] ==> k < |ds| && ds[k] == d
    requires LeastOf(score, d, ds)
    requires forall i :: 0 <= i < k && i < |ds| ==> score(ds[i]) > score(d)
    ensures d == Best(score, facing, ds)
  {
    if |ds| > 1 {
      var n := |ds| - 1;
      var prefix := ds[..n];
      if k < n {
        LeastOfPrefix(score, d, ds, n);
        BestIsFirstLeast(score, facing, prefix, d, k);
        assert ds[n] in ds;
      } else {
        var j := BestIndex(score, facing, prefix);
        assert score(ds[j]) > score(d);
      }
    }
  }

  lemma LeastOfPrefix(score: Direction -> real, d: Direction, ds: seq<Direction>, n: nat)
    requires n <= |ds| && LeastOf(score, d, ds)
    ensures LeastOf(score, d, ds[..n])
  {
    forall e | e in ds[..n]
      ensures score(d) <= score(e)
    {
      var i :| 0 <= i < n && ds[i] == e;
      assert ds[i] in ds;
    }
  }

  /** Where Best is found in a non-empty ds. */
  lemma BestIndex(score: Direction -> real, facing: Direction, ds: seq<Direction>) returns (j: nat)
    requires ds != []
    ensures j < |ds| && ds[j] == Best(score, facing, ds)
  {
    var b := Best(score, facing, ds);
    j :| 0 <= j < |ds| && ds[j] == b;
  }

  /** The heading move chooses when it does not follow a path. */
  function Heading(sqrt: real -> real, g: Grid, c: Cell, facing: Direction, eaten: bool, frightened: bool,
                   target: Point, keep: real, pick: nat): Direction
  {
    var dirs := PossibleDirections(g, c, facing, eaten);
    if frightened then
      (if facing in dirs && keep > 0.2 then facing else dirs[pick % |dirs|])
    else Best(Scorer(sqrt, c, facing, target), facing, dirs)
  }

  /** p is what is left of q after dropping some leading waypoints. */
  predicate IsSuffix(p: seq<Point>, q: seq<Point>)
  {
    |p| <= |q| && p == q[|q| - |p|..]
  }

  lemma SuffixOfTail(p: seq<Point>, q: seq<Point>)
    requires q != [] && IsSuffix(p, q[1..])
    ensures IsSuffix(p, q)
  {
    assert q[1..][|q[1..]| - |p|..] == q[|q| - |p|..];
  }

  /** The point moveInDirection tries: one step of the given speed, wrapped through the side tunnels. */
  function StepTo(x: real, y: real, d: Direction, speed: real, width: int): Point
  {
    var nx := x + DeltaX(d) as real * speed;
    var ny := y + DeltaY(d) as real * speed;
    if nx < 0.0 then Point(width as real - 1.0, ny)
    else if nx >= width as real then Point(0.0, ny)
    else Point(nx, ny)
  }

  /**
   * The gradual centring of moveInDirection on the axis across the motion:
   * snap when within 0.1 of the cell centre, move 30% of the way when within
   * 0.3, and otherwise keep `away`, the coordinate the step itself produced
   * (which differs from v only when the tunnel wrapped it).
   */
  function AlignOr(v: real, away: real): real
  {
    var c := v.Floor as real + 0.5;
    var d := AbsReal(v - c);
    if d < 0.1 then c else if d < 0.3 then v + (c - v) * 0.3 else away
  }

  /** The centring of a coordinate the step did not change. */
  function Align(v: real): real
  {
    AlignOr(v, v)
  }

  /** Far from the centre the wrapped coordinate is kept: x = -0.9 heading up leaves the ghost at x = 27. */
  lemma AlignKeepsWrap()
    ensures AlignOr(-0.9, 27.0) == 27.0 && AlignOr(-0.45, 27.0) == -0.5
  {
    assert (-0.9 as real).Floor == -1;
    assert (-0.45 as real).Floor == -1;
  }

  /** How many leading waypoints of p lie closer than one step to (x, y): followPath drops them. */
  function Arrived(x: real, y: real, speed: real, p: seq<Point>): (k: nat)
    ensures k <= |p|
  {
    if p == [] || Square(p[0].x - x) + Square(p[0].y - y) >= speed * speed then 0
    else 1 + Arrived(x, y, speed, p[1..])
  }

  /** The waypoints Arrived counts are all within a step; the first one it stops at is not. */
  lemma {:induction false} ArrivedSplit(x: real, y: real, speed: real, p: seq<Point>)
    ensures var k := Arrived(x, y, speed, p);
      (forall i :: 0 <= i < k ==> Square(p[i].x - x) + Square(p[i].y - y) < speed * speed) &&
      (k < |p| ==> Square(p[k].x - x) + Square(p[k].y - y) >= speed * speed)
  {
    if p != [] && Square(p[0].x - x) + Square(p[0].y - y) < speed * speed {
      ArrivedSplit(x, y, speed, p[1..]);
      var k := Arrived(x, y, speed, p);
      forall i | 1 <= i < k
        ensures Square(p[i].x - x) + Square(p[i].y - y) < speed * speed
      {
        assert p[1..][i - 1] == p[i];
      }
      if k < |p| {
        assert p[1..][k - 1] == p[k];
      }
    }
  }

  /** followPath's heading for an offset (dx, dy): along the axis of the larger offset, the vertical one on ties. */
  function Toward(dx: real, dy: real): Direction
  {
    if AbsReal(dx) > AbsReal(dy) then (if dx > 0.0 then Right else Left)
    else if dy > 0.0 then Down else Up
  }

  /** That heading points at the offset: its component along it is the larger of the two offsets' sizes. */
  lemma TowardPoints(dx: real, dy: real)
    ensures var d := Toward(dx, dy);
      DeltaX(d) as real * dx + DeltaY(d) as real * dy == (if AbsReal(dx) > AbsReal(dy) then AbsReal(dx) else AbsReal(dy))
  {
  }

  /** The point one step of `speed` from (x, y) straight at w (or (x, y) itself when w is there). */
  function PathStep(sqrt: real -> real, x: real, y: real, w: Point, speed: real): Point
  {
    var dx := w.x - x;
    var dy := w.y - y;
    var distance := sqrt(dx * dx + dy * dy);
    if distance == 0.0 then Point(x, y) else Point(x + dx / distance * speed, y + dy / distance * speed)
  }

  /** The path a timed replan leaves: a planned one once the timer reaches the interval, the old one before. */
  ghost predicate Replanned(g: Grid, canPassDoor: bool, at: Point, target: Point, timer: real, interval: real,
                            before: seq<Point>, p: seq<Point>)
  {
    if timer >= interval then PlannedPath(g, canPassDoor, at, target, p) else p == before
  }

  /** The target the first 20 rolls of chooseRandomTarget give, or `previous` when all land on walls. */
  function RollOr(g: Grid, rolls: seq<Cell>, previous: Point): Point
    requires |rolls| >= 20
  {
    match FirstOpenRoll(g, rolls[..20])
    case Some(c) => Point(c.x as real, c.y as real)
    case None => previous
  }

  /** determineTarget's target for a ghost that is not frightened, standing at `at`, in mode m. */
  function ModeTarget(sqrt: real -> real, k: Kind, m: Mode, at: Point, player: PlayerView, blinky: Point, previous: Point): Point
  {
    match m
    case Scatter => ScatterTarget(k)
    case Chase => ChaseTarget(sqrt, k, at, player, blinky)
    case Frightened => previous
  }

  /** Centring never moves a coordinate away from its cell centre, nor out of its cell. */
  lemma AlignCloser(v: real)
    ensures var c := v.Floor as real + 0.5;
      AbsReal(Align(v) - c) <= AbsReal(v - c) && Align(v).Floor == v.Floor
  {
    var c := v.Floor as real + 0.5;
    SnapKeepsCell(v);
    if AbsReal(v - c) < 0.3 {
      assert Align(v) - c == 0.7 * (v - c) || Align(v) == c;
    }
  }

  /** A move of length s along the unit vector (dx, dy) / d covers exactly s. */
  lemma UnitStep(dx: real, dy: real, d: real, s: real)
    requires d > 0.0 && d * d == dx * dx + dy * dy
    ensures Square(dx / d * s) + Square(dy / d * s) == s * s
  {
    var u, v := dx / d, dy / d;
    var dd := d * d;
    var w := u * u + v * v;
    assert u * d == dx && v * d == dy;
    assert w * dd == (u * d) * (u * d) + (v * d) * (v * d);
    assert (u * d) * (u * d) == dx * dx && (v * d) * (v * d) == dy * dy;
    assert w * dd == dd;
    MulMonoStrict(0.0, d, d, 0.0, dd);
    if w < 1.0 {
      MulMonoStrict(w, 1.0, dd, w * dd, dd);
    } else if w > 1.0 {
      MulMonoStrict(1.0, w, dd, dd, w * dd);
    }
    assert Square(u * s) + Square(v * s) == w * (s * s);
  }

  class Ghost {
    const kind: Kind
    const maze: GameMap
    const startX: real
    const startY: real
    const radius: real := 0.4
    const blinkStart: real := 5000.0
    const pathUpdateInterval: real := 500.0
    const stuckThreshold: int := 10
    const stuckDetectionDistance: real := 0.05
    const scatterTarget: Point := ScatterTarget(kind)

    var x: real
    var y: real
    var direction: Direction
    var speed: real
    var baseSpeed: real
    var mode: Mode
    var previousMode: Mode
    var frightened: bool
    var eaten: bool
    var recovering: bool
    var waitingInHouse: bool
    var leavingHouse: bool
    var modeTimer: real
    var frightenedTimer: real
    var frightenedDuration: real
    var blinking: bool
    var blinkTimer: real
    var recoverTimer: real
    var waitTimer: real
    var targetX: real
    var targetY: real
    var path: seq<Point>
    var pathUpdateTimer: real
    var stuckCheckCounter: int
    var lastPosition: Point

    /**
     * The speed follows the state (double when eaten, half when frightened),
     * an eaten ghost is not frightened, a frightened one is in frightened
     * mode, the path holds at most 10 waypoints and the stuck counter stays
     * below its threshold.
     */
    ghost predicate Valid()
      reads this
    {
      Steady() && 0 <= stuckCheckCounter < stuckThreshold
    }

    /** Valid but for the stuck counter, which may sit at its threshold just before a recovery. */
    ghost predicate Steady()
      reads this
    {
      baseSpeed > 0.0 &&
      speed == (if eaten then baseSpeed * 2.0 else if frightened then baseSpeed * 0.5 else baseSpeed) &&
      (eaten ==> !frightened) && (frightened ==> mode == Frightened) && |path| <= 10
    }

    /** The cell the ghost stands in. */
    function Here(): Cell
      reads this
    {
      CellOf(Point(x, y))
    }

    /**
     * Where followPath leaves a ghost that stood at (ox, oy) facing od with
     * the path op: the waypoints within a step are dropped; with none left
     * nothing moves; otherwise the ghost faces the next one and steps at
     * it when canMoveTo allows, and else is nudged and plans again.
     */
    ghost predicate Followed(sqrt: real -> real, ox: real, oy: real, od: Direction, op: seq<Point>)
      reads this, maze
    {
      var k := Arrived(ox, oy, speed, op);
      if k == |op| then path == [] && x == ox && y == oy && direction == od
      else HeadedFor(sqrt, ox, oy, op[k..])
    }

    /**
     * Where followPath leaves a ghost at (ox, oy) whose first waypoint in
     * `rest` is at least a step away: facing it, and one step nearer when
     * canMoveTo allows, or else nudged and with a new plan.
     */
    ghost predicate HeadedFor(sqrt: real -> real, ox: real, oy: real, rest: seq<Point>)
      requires rest != []
      reads this, maze
    {
      var w := rest[0];
      var n := PathStep(sqrt, ox, oy, w, speed);
      direction == Toward(w.x - ox, w.y - oy) &&
      if CanMoveTo(n.x, n.y) then x == n.x && y == n.y && path == rest
      else Nudged(ox, oy) && PlannedPath(maze.layout, eaten, Point(x, y), Point(targetX, targetY), path)
    }

    /** The blocked step of followPath: centred across its motion where canMoveTo allows it, not moved along it. */
    ghost predicate Nudged(ox: real, oy: real)
      reads this`x, this`y, this`direction, this`eaten, maze`layout
    {
      var cx := ox.Floor as real + 0.5;
      var cy := oy.Floor as real + 0.5;
      if direction == Up || direction == Down then y == oy && x == (if CanMoveTo(cx, oy) then cx else ox)
      else x == ox && y == (if CanMoveTo(ox, cy) then cy else oy)
    }

    /**
     * Where moveInDirection leaves a ghost that stood at (ox, oy) heading
     * od: one step, wrapped and centred across the motion, when canMoveTo
     * allows it; otherwise the centre of its cell and a new direction among
     * getPossibleDirections, the `pick`-th when frightened, Best otherwise.
     */
    ghost predicate Stepped(sqrt: real -> real, ox: real, oy: real, od: Direction, pick: nat)
      reads this, maze
    {
      var n := StepTo(ox, oy, od, speed, maze.width);
      var c := CellOf(Point(ox, oy));
      if CanMoveTo(n.x, n.y) then
        direction == od &&
        (od == Up || od == Down ==> x == AlignOr(ox, n.x) && y == n.y) &&
        (od == Left || od == Right ==> x == n.x && y == Align(oy))
      else
        var dirs := PossibleDirections(maze.layout, c, od, eaten);
        Point(x, y) == Center(c) &&
        direction == if frightened then dirs[pick % |dirs|] else Best(Scorer(sqrt, c, od, Point(targetX, targetY)), od, dirs)
    }

    /**
     * Where move leaves a ghost that stood at (ox, oy) facing od with the
     * path op: it follows the path unless frightened or the path is empty;
     * otherwise it takes Heading and makes moveInDirection's step.
     */
    ghost predicate Travelled(sqrt: real -> real, ox: real, oy: real, od: Direction, op: seq<Point>, keep: real, pick: nat, blockedPick: nat)
      reads this, maze
    {
      if op != [] && !frightened then Followed(sqrt, ox, oy, od, op)
      else
        path == op &&
        Stepped(sqrt, ox, oy, Heading(sqrt, maze.layout, CellOf(Point(ox, oy)), od, eaten, frightened, Point(targetX, targetY), keep, pick), blockedPick)
    }

    /** Where handleWaitingInHouse leaves a ghost that stood at (ox, oy) facing od: bobbed by bob * 0.005 and otherwise in place. */
    ghost predicate Bobbed(ox: real, oy: real, od: Direction, bob: real)
      reads this
    {
      x == ox && y == oy + bob * 0.005 && direction == od
    }

    /**
     * Where handleLeavingHouse leaves a ghost that stood at (ox, oy) facing
     * od: within 0.1 of the door (13.5, 11) it has left and faces left;
     * otherwise it is still leaving and one speed-length step nearer.
     */
    ghost predicate Exited(sqrt: real -> real, ox: real, oy: real, od: Direction)
      reads this
    {
      var d2 := Square(13.5 - ox) + Square(11.0 - oy);
      (d2 < 0.01 ==> !leavingHouse && direction == Left && x == ox && y == oy) &&
      (d2 >= 0.01 ==>
        sqrt(d2) > 0.0 && leavingHouse && direction == od &&
        Point(x, y) == PathStep(sqrt, ox, oy, Point(13.5, 11.0), speed))
    }

    /**
     * The waiting branch of update for a ghost that stood at (ox, oy) facing
     * od with wait timer w and target t: the timer runs down by dt, the
     * ghost bobs, and once the wait is over it starts leaving.
     */
    ghost predicate Waited(dt: real, bob: real, ox: real, oy: real, od: Direction, w: real, t: Point, timer: real, op: seq<Point>,
                           wasEaten: bool, wasLeaving: bool)
      reads this
    {
      waitTimer == w - dt && targetX == t.x && targetY == t.y && pathUpdateTimer == timer && path == op &&
      eaten == wasEaten && Bobbed(ox, oy, od, bob) &&
      (waitTimer <= 0.0 ==> !waitingInHouse && leavingHouse) && (waitTimer > 0.0 ==> waitingInHouse && leavingHouse == wasLeaving)
    }

    /**
     * The leaving branch of update: the wait timer, the target, the path
     * timer `timer`, the path `op` and the eaten flag stay, and the ghost
     * moves as Exited says.
     */
    ghost predicate Leaving(sqrt: real -> real, ox: real, oy: real, od: Direction, w: real, t: Point, timer: real, op: seq<Point>,
                            wasEaten: bool)
      reads this
    {
      waitTimer == w && targetX == t.x && targetY == t.y && pathUpdateTimer == timer && path == op &&
      eaten == wasEaten && Exited(sqrt, ox, oy, od)
    }

    /**
     * The eaten and roaming branches of update, from position (ox, oy),
     * direction od, target t, path timer timer and path op: eyes inside
     * the house revive there; eyes outside head for (13.5, 14) along a
     * replanned path; any other ghost takes its mode's target and moves
     * along its replanned path.
     */
    ghost predicate Roamed(player: PlayerView, blinky: Point, sqrt: real -> real, dice: GhostDice,
                           ox: real, oy: real, od: Direction, t: Point, timer: real, op: seq<Point>, wasEaten: bool)
      requires |dice.rolls| >= 20
      reads this, maze
    {
      (wasEaten ==>
         if IsInGhostHouse(maze.layout, ox, oy) then
           !eaten && !frightened && recovering && recoverTimer == 3000.0 && speed == baseSpeed &&
           waitingInHouse && waitTimer == 1000.0 && x == ox && y == oy && direction == od && path == op &&
           targetX == t.x && targetY == t.y && pathUpdateTimer == timer
         else
           eaten && targetX == 13.5 && targetY == 14.0 &&
           pathUpdateTimer == (if timer >= 100.0 then 0.0 else timer) &&
           exists p ::
             Replanned(maze.layout, true, Point(ox, oy), Point(targetX, targetY), timer, 100.0, op, p) &&
             Followed(sqrt, ox, oy, od, p)) &&
      (!wasEaten ==>
         Point(targetX, targetY) ==
           (if !frightened then ModeTarget(sqrt, kind, mode, Point(ox, oy), player, blinky, t)
            else if timer >= 1000.0 then RollOr(maze.layout, dice.rolls, t)
            else t) &&
         pathUpdateTimer == (if timer >= (if frightened then 1000.0 else pathUpdateInterval) then 0.0 else timer) &&
         exists p ::
           Replanned(maze.layout, false, Point(ox, oy), Point(targetX, targetY), timer,
                     if frightened then 1000.0 else pathUpdateInterval, op, p) &&
           Travelled(sqrt, ox, oy, od, p, dice.keep, dice.pick, dice.blockedPick))
    }

    /** The stuck detector is about to fire: a tenth tick in a row of moving less than 0.05. */
    ghost predicate StuckNow()
      reads this
    {
      Square(x - lastPosition.x) + Square(y - lastPosition.y) < 0.0025 && stuckCheckCounter + 1 == stuckThreshold
    }

    /**
     * The stuck detector's own fields over one tick, from the state s to
     * count c and last position l: a move
     * of 0.05 or more records the position and clears the count; a shorter
     * one counts, and the count that reaches the threshold is cleared while
     * the last position stays.
     */
    ghost predicate StuckChecked(s: StuckState, c: int, l: Point)
    {
      var d2 := Square(s.at.x - s.last.x) + Square(s.at.y - s.last.y);
      (d2 >= 0.0025 ==> c == 0 && l == s.at) &&
      (d2 < 0.0025 && s.count + 1 < stuckThreshold ==> c == s.count + 1 && l == s.last) &&
      (d2 < 0.0025 && s.count + 1 == stuckThreshold ==> c == 0 && l == s.last)
    }

    /** The fields the stuck detector reads. */
    ghost function Detector(): StuckState
      reads this
    {
      StuckState(Point(x, y), stuckCheckCounter, lastPosition)
    }

    /** The direction after manageTimers: reversed exactly when the scatter/chase timer runs out. */
    ghost function TimedDirection(dt: real): Direction
      reads this
    {
      if mode != Frightened && !eaten && modeTimer - dt <= 0.0 then Opposite(direction) else direction
    }

    /** The fields manageTimers reads. */
    ghost function Timers(): TimerState
      reads this
    {
      TimerState(mode, modeTimer, frightened, frightenedTimer, blinking, blinkTimer, previousMode, eaten, speed, recovering, recoverTimer)
    }

    /** The scatter/chase and fright clock. */
    ghost function Clock(): ModeClock
      reads this
    {
      ModeClock(mode, modeTimer, frightenedTimer, blinking, blinkTimer, previousMode)
    }

    /** The fright flag, the speeds and the fright timer. */
    ghost function Fright(): FrightState
      reads this
    {
      FrightState(frightened, speed, baseSpeed, frightenedTimer)
    }

    /** The recovery flag and timer. */
    ghost function Recovering(): Recovery
      reads this
    {
      Recovery(recovering, recoverTimer)
    }

    /**
     * The scatter/chase and fright timers after manageTimers over dt: the
     * scatter/chase timer runs (and switches the mode at zero) only outside
     * frightened mode and for a ghost that is not eaten; a frightened ghost's
     * timer runs down, blinking from 5 s before the end, and at zero the
     * ghost is back in its saved mode; otherwise the fright fields stay.
     */
    ghost predicate ModeTicked(t: TimerState, c: ModeClock, dt: real)
    {
      (t.mode == Frightened || t.eaten ==> c.modeTimer == t.modeTimer && (t.frightened || c.mode == t.mode)) &&
      (t.mode != Frightened && !t.eaten ==>
        if t.modeTimer - dt <= 0.0 then c.mode == NextMode(t.mode) && c.modeTimer == ModeLength(c.mode)
        else c.mode == t.mode && c.modeTimer == t.modeTimer - dt) &&
      c.previousMode == t.previousMode &&
      (t.frightened ==> c.frightenedTimer == t.frightenedTimer - dt) &&
      (t.frightened && c.frightenedTimer <= 0.0 ==> !c.blinking && c.mode == c.previousMode) &&
      (t.frightened && c.frightenedTimer > 0.0 ==>
        c.mode == Frightened && (c.blinking <==> t.blinking || c.frightenedTimer <= blinkStart)) &&
      (!t.frightened ==> c.frightenedTimer == t.frightenedTimer && c.blinking == t.blinking && c.blinkTimer == t.blinkTimer)
    }

    /** The fright flag and speed after manageTimers over dt: fright ends, at base speed, when its timer runs out. */
    ghost predicate FrightTicked(t: TimerState, f: FrightState)
    {
      (t.frightened && f.frightenedTimer <= 0.0 ==> !f.frightened && f.speed == f.baseSpeed) &&
      (t.frightened && f.frightenedTimer > 0.0 ==> f.frightened && f.speed == t.speed) &&
      (!t.frightened ==> !f.frightened && f.speed == t.speed)
    }

    /** The recovery flag and timer after manageTimers over dt: the timer runs while recovering and the flag drops at zero. */
    ghost predicate RecoveryTicked(t: TimerState, r: Recovery, dt: real)
    {
      r.recovering == (t.recovering && t.recoverTimer - dt > 0.0) &&
      r.recoverTimer == if t.recovering then t.recoverTimer - dt else t.recoverTimer
    }

    constructor(x: real, y: real, maze: GameMap, kind: Kind)
      ensures Valid()
      ensures this.x == x && this.y == y && startX == x && startY == y && this.maze == maze && this.kind == kind
      ensures direction == Up && mode == Scatter && previousMode == Scatter && modeTimer == 0.0
      ensures baseSpeed == BaseSpeedOf(kind) && speed == baseSpeed && frightenedDuration == 7000.0
      ensures !frightened && !eaten && !recovering && !waitingInHouse && !leavingHouse && !blinking && path == []
      ensures frightenedTimer == 0.0 && blinkTimer == 0.0 && recoverTimer == 0.0 && waitTimer == 0.0
      ensures targetX == 0.0 && targetY == 0.0
      ensures pathUpdateTimer == 0.0 && stuckCheckCounter == 0 && lastPosition == Point(0.0, 0.0)
    {
      this.x, this.y := x, y;
      startX, startY := x, y;
      this.maze := maze;
      this.kind := kind;
      direction := Up;
      speed, baseSpeed := BaseSpeedOf(kind), BaseSpeedOf(kind);
      mode, previousMode := Scatter, Scatter;
      frightened, eaten, recovering, waitingInHouse, leavingHouse := false, false, false, false, false;
      modeTimer, frightenedTimer, frightenedDuration := 0.0, 0.0, 7000.0;
      blinking, blinkTimer, recoverTimer, waitTimer := false, 0.0, 0.0, 0.0;
      targetX, targetY := 0.0, 0.0;
      path := [];
      pathUpdateTimer := 0.0;
      stuckCheckCounter := 0;
      lastPosition := Point(0.0, 0.0);
    }

    /** reverseDirection. */
    method ReverseDirection()
      modifies this`direction
      ensures direction == Opposite(old(direction))
    {
      direction := Opposite(direction);
    }

    /** switchMode: alternate scatter and chase, restart the mode timer, turn around. */
    method SwitchMode()
      requires Valid() && !frightened
      modifies this`mode, this`modeTimer, this`direction
      ensures Valid()
      ensures mode == NextMode(old(mode)) && modeTimer == ModeLength(mode) && direction == Opposite(old(direction))
    {
      if mode == Scatter {
        mode := Chase;
        modeTimer := 20000.0;
      } else {
        mode := Scatter;
        modeTimer := 7000.0;
      }
      ReverseDirection();
    }

    /** startFrightened: a no-op for an eaten ghost; otherwise save the mode, slow down and turn around. */
    method StartFrightened()
      requires Valid()
      modifies this`previousMode, this`mode, this`frightened, this`frightenedTimer, this`blinking, this`speed, this`direction
      ensures Valid()
      ensures old(eaten) ==> unchanged(this)
      ensures !old(eaten) ==>
        previousMode == old(mode) && mode == Frightened && frightened && frightenedTimer == frightenedDuration &&
        !blinking && speed == baseSpeed * 0.5 && direction == Opposite(old(direction))
    {
      if eaten {
        return;
      }
      previousMode := mode;
      mode := Frightened;
      frightened := true;
      frightenedTimer := frightenedDuration;
      blinking := false;
      speed := baseSpeed * 0.5;
      ReverseDirection();
    }

    /** endFrightened: back to the saved mode at base speed. */
    method EndFrightened()
      requires Valid() && !eaten
      modifies this`frightened, this`blinking, this`mode, this`speed
      ensures Valid()
      ensures !frightened && !blinking && mode == old(previousMode) && speed == baseSpeed
    {
      frightened := false;
      blinking := false;
      mode := previousMode;
      speed := baseSpeed;
    }

    /** The mode part of manageTimers: count the scatter/chase timer down and switch at zero. */
    method TickMode(dt: real)
      requires Valid()
      modifies this`mode, this`modeTimer, this`direction
      ensures Valid()
      ensures old(mode) == Frightened || eaten ==> unchanged(this)
      ensures old(mode) != Frightened && !eaten ==>
        if old(modeTimer) - dt <= 0.0 then
          mode == NextMode(old(mode)) && modeTimer == ModeLength(mode) && direction == Opposite(old(direction))
        else mode == old(mode) && modeTimer == old(modeTimer) - dt && direction == old(direction)
    {
      if mode != Frightened && !eaten {
        modeTimer := modeTimer - dt;
        if modeTimer <= 0.0 {
          SwitchMode();
        }
      }
    }

    /** The frightened part of manageTimers: count down, start blinking near the end, recover at zero. */
    method TickFrightened(dt: real)
      requires Valid()
      modifies this`frightened, this`frightenedTimer, this`blinking, this`blinkTimer, this`mode, this`speed
      ensures Valid()
      ensures !old(frightened) ==> unchanged(this)
      ensures old(frightened) ==> frightenedTimer == old(frightenedTimer) - dt
      ensures old(frightened) && frightenedTimer <= 0.0 ==>
        !frightened && !blinking && mode == previousMode && speed == baseSpeed
      ensures old(frightened) && frightenedTimer > 0.0 ==>
        frightened && mode == Frightened && speed == old(speed) &&
        (blinking <==> old(blinking) || frightenedTimer <= blinkStart)
    {
      if frightened {
        frightenedTimer := frightenedTimer - dt;
        if frightenedTimer <= blinkStart && !blinking {
          blinking := true;
        }
        if blinking {
          blinkTimer := blinkTimer + dt;
          if blinkTimer >= 200.0 {
            blinkTimer := 0.0;
          }
        }
        if frightenedTimer <= 0.0 {
          EndFrightened();
        }
      }
    }

    /** The recovery part of manageTimers: the recovery flag drops when its timer runs out. */
    method TickRecovery(dt: real)
      modifies this`recovering, this`recoverTimer
      ensures recovering == (old(recovering) && old(recoverTimer) - dt > 0.0)
      ensures recoverTimer == if old(recovering) then old(recoverTimer) - dt else old(recoverTimer)
    {
      if recovering {
        recoverTimer := recoverTimer - dt;
        if recoverTimer <= 0.0 {
          recovering := false;
        }
      }
    }

    /** manageTimers: path, mode, frightened and recovery timers for one tick of dt milliseconds. */
    method ManageTimers(dt: real)
      requires Valid()
      modifies this`pathUpdateTimer, this`mode, this`modeTimer, this`direction, this`frightened, this`frightenedTimer
      modifies this`blinking, this`blinkTimer, this`speed, this`recovering, this`recoverTimer
      ensures Valid()
      ensures pathUpdateTimer == old(pathUpdateTimer) + dt
      ensures ModeTicked(old(Timers()), Clock(), dt) && FrightTicked(old(Timers()), Fright()) && RecoveryTicked(old(Timers()), Recovering(), dt)
      ensures direction == old(TimedDirection(dt))
    {
      pathUpdateTimer := pathUpdateTimer + dt;
      TickMode(dt);
      TickFrightened(dt);
      TickRecovery(dt);
    }

    /** getEaten: eyes only, heading home at double speed. */
    method GetEaten()
      requires Valid()
      modifies this`eaten, this`frightened, this`speed
      ensures Valid()
      ensures eaten && !frightened && speed == baseSpeed * 2.0
    {
      eaten := true;
      frightened := false;
      speed := baseSpeed * 2.0;
    }

    /** canMoveTo: inside the map, not a wall and not the door unless eaten; outside, only the tunnel rows. */
    function CanMoveTo(x: real, y: real): (r: bool)
      reads this`eaten, maze`layout
      ensures x < 0.0 || x >= maze.width as real || y < 0.0 || y >= maze.height as real ==>
        (r <==> 13.0 <= y <= 15.0 && (x < 0.0 || x >= maze.width as real))
      ensures 0.0 <= x < maze.width as real && 0.0 <= y < maze.height as real ==>
        (r <==> Passable(maze.layout, eaten, CellOf(Point(x, y))))
    {
      if x < 0.0 || x >= maze.width as real || y < 0.0 || y >= maze.height as real then
        (13.0 <= y <= 15.0) && (x < 0.0 || x >= maze.width as real)
      else
        var cellX := x.Floor;
        var cellY := y.Floor;
        if IsWall(maze.layout, cellX as real, cellY as real) then false
        else if IsGhostDoor(maze.layout, cellX as real, cellY as real) && !eaten then false
        else true
    }

    /** getAllPossibleDirections: every direction whose neighbour cell is not a wall, in wheel order. */
    method GetAllPossibleDirections() returns (directions: seq<Direction>)
      ensures directions == AllPossibleDirections(maze.layout, Here())
    {
      directions := [];
      var i := 0;
      while i < |Wheel|
        invariant 0 <= i <= |Wheel| && directions == Keep(maze.layout, Here(), Wheel[..i], None, true)
      {
        var direction := Wheel[i];
        assert Wheel[..i + 1][..i] == Wheel[..i];
        var testX := x.Floor + DeltaX(direction);
        var testY := y.Floor + DeltaY(direction);
        FloorOfInt(testX);
        FloorOfInt(testY);
        if !IsWall(maze.layout, testX as real, testY as real) {
          directions := directions + [direction];
        }
        i := i + 1;
      }
      assert Wheel[..i] == Wheel;
    }

    /** getPossibleDirections: the legal directions except turning back, or turning back when nothing else is legal. */
    method GetPossibleDirections() returns (possibleDirections: seq<Direction>)
      ensures possibleDirections == PossibleDirections(maze.layout, Here(), direction, eaten)
    {
      possibleDirections := [];
      var oppositeDirection := Opposite(direction);
      var i := 0;
      while i < |Wheel|
        invariant 0 <= i <= |Wheel|
        invariant possibleDirections == Keep(maze.layout, Here(), Wheel[..i], Some(oppositeDirection), eaten)
      {
        var d := Wheel[i];
        assert Wheel[..i + 1][..i] == Wheel[..i];
        if d != oppositeDirection {
          var currentX := x.Floor as real + 0.5;
          var currentY := y.Floor as real + 0.5;
          SnapKeepsCell(x);
          SnapKeepsCell(y);
          var nextCellX := currentX.Floor + DeltaX(d);
          var nextCellY := currentY.Floor + DeltaY(d);
          FloorOfInt(nextCellX);
          FloorOfInt(nextCellY);
          if !IsWall(maze.layout, nextCellX as real, nextCellY as real) {
            if !IsGhostDoor(maze.layout, nextCellX as real, nextCellY as real) || eaten {
              possibleDirections := possibleDirections + [d];
            }
          }
        }
        i := i + 1;
      }
      assert Wheel[..i] == Wheel;
      if |possibleDirections| == 0 {
        possibleDirections := possibleDirections + [oppositeDirection];
      }
    }

    /**
     * getBestDirection: the direction of least StepScore, the first one on
     * ties; the current direction when there is nothing to choose from.
     */
    method GetBestDirection(directions: seq<Direction>, sqrt: real -> real) returns (bestDirection: Direction, ghost bestIndex: nat)
      ensures |directions| == 0 ==> bestDirection == direction
      ensures |directions| > 0 ==> bestIndex < |directions| && directions[bestIndex] == bestDirection
      ensures LeastOf(Scorer(sqrt, Here(), direction, Point(targetX, targetY)), bestDirection, directions)
      ensures forall i :: 0 <= i < bestIndex && i < |directions| ==>
        Scorer(sqrt, Here(), direction, Point(targetX, targetY))(directions[i]) >
        Scorer(sqrt, Here(), direction, Point(targetX, targetY))(bestDirection)
    {
      bestIndex := 0;
      if |directions| == 0 {
        return direction, 0;
      }
      var target := Point(targetX, targetY);
      bestDirection := directions[0];
      var shortestDistance: Option<real> := None;
      var k := 0;
      while k < |directions|
        invariant 0 <= k <= |directions| && bestIndex < |directions| && directions[bestIndex] == bestDirection
        invariant k == 0 <==> shortestDistance.None?
        invariant k == 0 ==> bestIndex == 0
        invariant k > 0 ==> bestIndex < k && shortestDistance == Some(StepScore(sqrt, Here(), direction, target, bestDirection))
        invariant forall i :: 0 <= i < k ==> shortestDistance.value <= StepScore(sqrt, Here(), direction, target, directions[i])
        invariant forall i :: 0 <= i < bestIndex ==>
          StepScore(sqrt, Here(), direction, target, directions[i]) > StepScore(sqrt, Here(), direction, target, bestDirection)
      {
        var d := directions[k];
        var testX := x.Floor as real + 0.5 + 2.0 * DeltaX(d) as real;
        var testY := y.Floor as real + 0.5 + 2.0 * DeltaY(d) as real;
        var distance := sqrt(Square(testX - targetX) + Square(testY - targetY));
        var sameDirectionBonus := if d == direction then 0.7 else 0.0;
        var adjustedDistance := distance - sameDirectionBonus;
        assert adjustedDistance == StepScore(sqrt, Here(), direction, target, d);
        if shortestDistance.None? || adjustedDistance < shortestDistance.value {
          shortestDistance := Some(adjustedDistance);
          bestDirection := d;
          bestIndex := k;
        }
        k := k + 1;
      }
    }

    /**
     * recoverFromStuckState: snap to the centre of the current cell, drop the
     * path, pick one of the non-wall directions at random (index `pick`, the
     * Random.choose draw) and restart the stuck counter.
     */
    method RecoverFromStuckState(pick: nat)
      requires Steady()
      modifies this`x, this`y, this`path, this`direction, this`stuckCheckCounter
      ensures Valid()
      ensures Point(x, y) == Center(old(Here())) && path == [] && stuckCheckCounter == 0
      ensures var dirs := AllPossibleDirections(maze.layout, old(Here()));
        direction == if |dirs| > 0 then dirs[pick % |dirs|] else old(direction)
    {
      SnapKeepsCell(x);
      SnapKeepsCell(y);
      x := x.Floor as real + 0.5;
      y := y.Floor as real + 0.5;
      path := [];
      var possibleDirs := GetAllPossibleDirections();
      if |possibleDirs| > 0 {
        direction := possibleDirs[pick % |possibleDirs|];
      }
      stuckCheckCounter := 0;
    }

    /**
     * checkForStuckState: a tick that moves the ghost less than 0.05 from the
     * last recorded position counts towards the threshold (compared here on
     * squares, 0.05² = 0.0025); reaching it recovers. A longer move records
     * the new position and clears the count.
     */
    method CheckForStuckState(sqrt: real -> real, pick: nat)
      requires IsSqrt(sqrt) && Valid()
      modifies this`x, this`y, this`path, this`direction, this`stuckCheckCounter, this`lastPosition
      ensures Valid()
      ensures StuckChecked(old(Detector()), stuckCheckCounter, lastPosition)
      ensures waitingInHouse == old(waitingInHouse) && leavingHouse == old(leavingHouse) && eaten == old(eaten) &&
        waitTimer == old(waitTimer) && targetX == old(targetX) && targetY == old(targetY)
      ensures !old(StuckNow()) ==> x == old(x) && y == old(y) && path == old(path) && direction == old(direction)
      ensures old(StuckNow()) ==>
        Point(x, y) == Center(old(Here())) && path == [] &&
        var dirs := AllPossibleDirections(maze.layout, old(Here()));
        direction == if |dirs| > 0 then dirs[pick % |dirs|] else old(direction)
    {
      var d2 := Square(x - lastPosition.x) + Square(y - lastPosition.y);
      SumOfSquaresNonNegative(x - lastPosition.x, y - lastPosition.y);
      SqrtLess(sqrt, d2, stuckDetectionDistance);
      var distMoved := sqrt(d2);
      if distMoved < stuckDetectionDistance {
        stuckCheckCounter := stuckCheckCounter + 1;
      } else {
        stuckCheckCounter := 0;
        lastPosition := Point(x, y);
      }
      if stuckCheckCounter >= stuckThreshold {
        RecoverFromStuckState(pick);
      }
    }

    /**
     * updatePath: no path when the target is closer than 4 (on squares, 16);
     * otherwise findPath from the centre of the current cell to the centre of
     * the target's cell, cut to its first 10 waypoints.
     */
    method UpdatePath(canPassGhostDoor: bool, sqrt: real -> real)
      requires IsSqrt(sqrt) && Valid()
      modifies this`path
      ensures Valid()
      ensures PlannedPath(maze.layout, canPassGhostDoor, Point(x, y), Point(targetX, targetY), path)
    {
      var startX := x.Floor as real + 0.5;
      var startY := y.Floor as real + 0.5;
      var tX := targetX.Floor as real + 0.5;
      var tY := targetY.Floor as real + 0.5;
      var d2 := Square(x - targetX) + Square(y - targetY);
      SumOfSquaresNonNegative(x - targetX, y - targetY);
      SqrtLess(sqrt, d2, 4.0);
      var directDistance := sqrt(d2);
      if directDistance < 4.0 {
        path := [];
        return;
      }
      assert !(d2 < 16.0);
      SnapKeepsCell(x);
      SnapKeepsCell(y);
      SnapKeepsCell(targetX);
      SnapKeepsCell(targetY);
      var full := maze.FindPath(startX, startY, tX, tY, canPassGhostDoor);
      PlannedCut(maze.layout, canPassGhostDoor, Point(x, y), Point(targetX, targetY), full);
      if |full| > 10 {
        full := full[..10];
      }
      path := full;
    }

    /**
     * followPath: drop the waypoints already within one step, then head for
     * the next one along the axis of its larger offset and step straight at
     * it. A blocked step centres the ghost across its motion when possible
     * and plans again.
     */
    method FollowPath(sqrt: real -> real)
      requires IsSqrt(sqrt) && Valid()
      modifies this`x, this`y, this`direction, this`path
      ensures Valid()
      ensures old(path) == [] ==> unchanged(this)
      ensures Followed(sqrt, old(x), old(y), old(direction), old(path))
      ensures IsSuffix(path, old(path)) || PlannedPath(maze.layout, eaten, Point(x, y), Point(targetX, targetY), path)
      decreases |path|, 1
    {
      if |path| == 0 {
        return;
      }
      var nextPoint := path[0];
      var dx := nextPoint.x - x;
      var dy := nextPoint.y - y;
      var d2 := Square(dx) + Square(dy);
      SumOfSquaresNonNegative(dx, dy);
      SqrtLess(sqrt, d2, speed);
      var distance := sqrt(d2);
      if distance < speed {
        assert d2 < speed * speed;
        DropWaypoint(sqrt);
        return;
      }
      assert d2 >= speed * speed;
      assert Arrived(x, y, speed, path) == 0 && path[0..] == path;
      HeadFor(sqrt);
      assert path == old(path) ==> path[0..] == old(path);
    }

    /** The shift of followPath: drop the first waypoint, which is within a step, and follow the rest. */
    method DropWaypoint(sqrt: real -> real)
      requires IsSqrt(sqrt) && Valid() && path != []
      requires Arrived(x, y, speed, path) == 1 + Arrived(x, y, speed, path[1..])
      modifies this`x, this`y, this`direction, this`path
      ensures Valid()
      ensures Followed(sqrt, old(x), old(y), old(direction), old(path))
      ensures IsSuffix(path, old(path)) || PlannedPath(maze.layout, eaten, Point(x, y), Point(targetX, targetY), path)
      decreases |path|, 0
    {
      var rest := path[1..];
      path := rest;
      FollowPath(sqrt);
      FollowedAfterDrop(sqrt, old(x), old(y), old(direction), old(path));
      if IsSuffix(path, rest) {
        SuffixOfTail(path, old(path));
      }
    }

    /** Dropping a waypoint within one step does not change where followPath leaves the ghost. */
    lemma FollowedAfterDrop(sqrt: real -> real, ox: real, oy: real, od: Direction, op: seq<Point>)
      requires op != [] && Arrived(ox, oy, speed, op) == 1 + Arrived(ox, oy, speed, op[1..])
      requires Followed(sqrt, ox, oy, od, op[1..])
      ensures Followed(sqrt, ox, oy, od, op)
    {
      var rest := op[1..];
      var k := Arrived(ox, oy, speed, rest);
      if k < |rest| {
        assert rest[k..] == op[k + 1..];
      }
    }

    /**
     * The part of followPath past the waypoints already reached: face the
     * next one along the axis of its larger offset and step straight at it;
     * a blocked step centres the ghost across its motion when possible and
     * plans again.
     */
    method HeadFor(sqrt: real -> real)
      requires IsSqrt(sqrt) && Valid() && path != []
      modifies this`x, this`y, this`direction, this`path
      ensures Valid()
      ensures HeadedFor(sqrt, old(x), old(y), old(path))
      ensures path == old(path) || PlannedPath(maze.layout, eaten, Point(x, y), Point(targetX, targetY), path)
    {
      var nextPoint := path[0];
      var dx := nextPoint.x - x;
      var dy := nextPoint.y - y;
      if AbsReal(dx) > AbsReal(dy) {
        direction := if dx > 0.0 then Right else Left;
      } else {
        direction := if dy > 0.0 then Down else Up;
      }
      StepOrReplan(sqrt, nextPoint);
    }

    /** The step of followPath towards w once the direction is set: taken if canMoveTo allows it, else nudge and replan. */
    method StepOrReplan(sqrt: real -> real, w: Point)
      requires IsSqrt(sqrt) && Valid()
      modifies this`x, this`y, this`path
      ensures Valid()
      ensures var n := PathStep(sqrt, old(x), old(y), w, speed);
        if CanMoveTo(n.x, n.y) then x == n.x && y == n.y && path == old(path)
        else Nudged(old(x), old(y)) && PlannedPath(maze.layout, eaten, Point(x, y), Point(targetX, targetY), path)
    {
      var next := PathStep(sqrt, x, y, w, speed);
      if CanMoveTo(next.x, next.y) {
        x := next.x;
        y := next.y;
      } else {
        Unblock(sqrt);
      }
    }

    /** The blocked case of followPath's step: nudge, then replan from where the nudge left the ghost. */
    method Unblock(sqrt: real -> real)
      requires IsSqrt(sqrt) && Valid()
      modifies this`x, this`y, this`path
      ensures Valid()
      ensures Nudged(old(x), old(y)) && PlannedPath(maze.layout, eaten, Point(x, y), Point(targetX, targetY), path)
    {
      Nudge();
      UpdatePath(eaten, sqrt);
    }

    /** The blocked step of followPath: centre across the motion when canMoveTo allows it. */
    method Nudge()
      modifies this`x, this`y
      ensures Nudged(old(x), old(y))
    {
      if direction == Up || direction == Down {
        var newX := x.Floor as real + 0.5;
        if CanMoveTo(newX, y) {
          x := newX;
        }
      } else {
        var newY := y.Floor as real + 0.5;
        if CanMoveTo(x, newY) {
          y := newY;
        }
      }
    }

    /**
     * handleEatenState: inside the house the eyes turn back into a ghost
     * that recovers for 3 s and waits 1 s; elsewhere they head for the house
     * centre (13.5, 14), planning through the door every 100 ms.
     */
    method HandleEatenState(sqrt: real -> real)
      requires IsSqrt(sqrt) && Valid() && eaten
      modifies this`eaten, this`frightened, this`recovering, this`recoverTimer, this`speed, this`waitingInHouse
      modifies this`waitTimer, this`targetX, this`targetY, this`pathUpdateTimer, this`path, this`x, this`y, this`direction
      ensures Valid()
      ensures IsInGhostHouse(maze.layout, old(x), old(y)) ==>
        !eaten && !frightened && recovering && recoverTimer == 3000.0 && speed == baseSpeed &&
        waitingInHouse && waitTimer == 1000.0 &&
        x == old(x) && y == old(y) && direction == old(direction) && path == old(path) &&
        targetX == old(targetX) && targetY == old(targetY) && pathUpdateTimer == old(pathUpdateTimer)
      ensures !IsInGhostHouse(maze.layout, old(x), old(y)) ==>
        eaten && targetX == 13.5 && targetY == 14.0 && speed == old(speed) &&
        recovering == old(recovering) && recoverTimer == old(recoverTimer) &&
        waitingInHouse == old(waitingInHouse) && waitTimer == old(waitTimer) &&
        pathUpdateTimer == (if old(pathUpdateTimer) >= 100.0 then 0.0 else old(pathUpdateTimer)) &&
        exists p ::
          Replanned(maze.layout, true, Point(old(x), old(y)), Point(targetX, targetY), old(pathUpdateTimer), 100.0, old(path), p) &&
          Followed(sqrt, old(x), old(y), old(direction), p)
    {
      if IsInGhostHouse(maze.layout, x, y) {
        EnterHouse();
      } else {
        ReturnHome(sqrt);
      }
    }

    /** The house branch of handleEatenState: a ghost again, recovering for 3 s and waiting 1 s. */
    method EnterHouse()
      requires Valid()
      modifies this`eaten, this`frightened, this`recovering, this`recoverTimer, this`speed, this`waitingInHouse, this`waitTimer
      ensures Valid()
      ensures !eaten && !frightened && recovering && recoverTimer == 3000.0 && speed == baseSpeed
      ensures waitingInHouse && waitTimer == 1000.0
    {
      eaten := false;
      frightened := false;
      recovering := true;
      recoverTimer := 3000.0;
      speed := baseSpeed;
      waitingInHouse := true;
      waitTimer := 1000.0;
    }

    /** The outside branch of handleEatenState: target the house centre, replan every 100 ms, follow the path. */
    method ReturnHome(sqrt: real -> real)
      requires IsSqrt(sqrt) && Valid()
      modifies this`targetX, this`targetY, this`pathUpdateTimer, this`path, this`x, this`y, this`direction
      ensures Valid()
      ensures targetX == 13.5 && targetY == 14.0
      ensures pathUpdateTimer == if old(pathUpdateTimer) >= 100.0 then 0.0 else old(pathUpdateTimer)
      ensures exists p ::
        Replanned(maze.layout, true, Point(old(x), old(y)), Point(targetX, targetY), old(pathUpdateTimer), 100.0, old(path), p) &&
        Followed(sqrt, old(x), old(y), old(direction), p)
    {
      targetX := 13.5;
      targetY := 14.0;
      Replan(100.0, true, sqrt);
      ghost var p := path;
      FollowPath(sqrt);
      assert Replanned(maze.layout, true, Point(old(x), old(y)), Point(targetX, targetY), old(pathUpdateTimer), 100.0, old(path), p);
    }

    /** The timed replanning of handleEatenState and determineTarget: updatePath once the path timer reaches `interval`. */
    method Replan(interval: real, canPassGhostDoor: bool, sqrt: real -> real)
      requires IsSqrt(sqrt) && Valid()
      modifies this`path, this`pathUpdateTimer
      ensures Valid()
      ensures old(pathUpdateTimer) < interval ==> unchanged(this)
      ensures old(pathUpdateTimer) >= interval ==>
        pathUpdateTimer == 0.0 && PlannedPath(maze.layout, canPassGhostDoor, Point(x, y), Point(targetX, targetY), path)
    {
      if pathUpdateTimer >= interval {
        // updatePath neither reads nor writes the timer, so it is reset first
        pathUpdateTimer := 0.0;
        UpdatePath(canPassGhostDoor, sqrt);
      }
    }

    /**
     * handleWaitingInHouse: bob up and down (bob is the sine of the clock,
     * Math.sin(Date.now() / 200)) and leave once the wait is over.
     */
    method HandleWaitingInHouse(dt: real, bob: real)
      requires Valid()
      modifies this`y, this`waitTimer, this`waitingInHouse, this`leavingHouse
      ensures Valid()
      ensures y == old(y) + bob * 0.005 && waitTimer == old(waitTimer) - dt
      ensures waitTimer <= 0.0 ==> !waitingInHouse && leavingHouse
      ensures waitTimer > 0.0 ==> waitingInHouse == old(waitingInHouse) && leavingHouse == old(leavingHouse)
    {
      y := y + bob * 0.005;
      waitTimer := waitTimer - dt;
      if waitTimer <= 0.0 {
        waitingInHouse := false;
        leavingHouse := true;
      }
    }

    /**
     * handleLeavingHouse: within 0.1 of the exit (13.5, 11) the ghost is out
     * and turns left; otherwise it moves one step of its speed straight at
     * the exit (UnitStep gives the length of that step).
     */
    method HandleLeavingHouse(sqrt: real -> real)
      requires IsSqrt(sqrt) && Valid()
      modifies this`leavingHouse, this`direction, this`x, this`y
      ensures Valid()
      ensures var d2 := Square(13.5 - old(x)) + Square(11.0 - old(y));
        (d2 < 0.01 ==> !leavingHouse && direction == Left && x == old(x) && y == old(y)) &&
        (d2 >= 0.01 ==>
          sqrt(d2) > 0.0 && leavingHouse == old(leavingHouse) && direction == old(direction) &&
          Point(x, y) == PathStep(sqrt, old(x), old(y), Point(13.5, 11.0), speed))
    {
      var exitX := 13.5;
      var exitY := 11.0;
      var dx := exitX - x;
      var dy := exitY - y;
      SumOfSquaresNonNegative(dx, dy);
      SqrtLess(sqrt, dx * dx + dy * dy, 0.1);
      var distance := sqrt(dx * dx + dy * dy);
      assert Square(dx) + Square(dy) == dx * dx + dy * dy;
      if distance < 0.1 {
        leavingHouse := false;
        direction := Left;
      } else {
        // x += dx / distance * speed, and likewise y
        var next := PathStep(sqrt, x, y, Point(exitX, exitY), speed);
        x, y := next.x, next.y;
      }
    }

    /**
     * moveInDirection: one step of the current speed, wrapped through the
     * side tunnels. A step that can be taken also centres the ghost across
     * its motion (Align); a blocked one snaps it to the centre of its cell
     * and picks a new direction among getPossibleDirections, at random
     * (index `pick`) when frightened and by getBestDirection otherwise.
     */
    method MoveInDirection(sqrt: real -> real, pick: nat)
      requires Valid()
      modifies this`x, this`y, this`direction
      ensures Valid()
      ensures Stepped(sqrt, old(x), old(y), old(direction), pick)
    {
      var n := StepTo(x, y, direction, speed, maze.width);
      if CanMoveTo(n.x, n.y) {
        if direction == Up || direction == Down {
          x, y := AlignOr(x, n.x), n.y;
        } else {
          x, y := n.x, Align(y);
        }
      } else {
        TurnAtWall(sqrt, pick);
      }
    }

    /** The blocked branch of moveInDirection: centre in the cell and choose a new direction. */
    method TurnAtWall(sqrt: real -> real, pick: nat)
      requires Valid()
      modifies this`x, this`y, this`direction
      ensures Valid()
      ensures Point(x, y) == Center(old(Here()))
      ensures var dirs := PossibleDirections(maze.layout, old(Here()), old(direction), eaten);
        direction == if frightened then dirs[pick % |dirs|]
                     else Best(Scorer(sqrt, old(Here()), old(direction), Point(targetX, targetY)), old(direction), dirs)
    {
      SnapKeepsCell(x);
      SnapKeepsCell(y);
      x := x.Floor as real + 0.5;
      y := y.Floor as real + 0.5;
      var possibleDirections := GetPossibleDirections();
      PossibleDirectionsRule(maze.layout, Here(), direction, eaten);
      if |possibleDirections| > 0 {
        if frightened {
          direction := possibleDirections[pick % |possibleDirections|];
        } else {
          ghost var bestIndex;
          direction, bestIndex := GetBestDirection(possibleDirections, sqrt);
          BestIsFirstLeast(Scorer(sqrt, Here(), old(direction), Point(targetX, targetY)), old(direction), possibleDirections, direction, bestIndex);
        }
      }
    }

    /**
     * move: follow the planned path unless frightened or it is empty;
     * otherwise choose a heading (ChooseHeading) and step with
     * moveInDirection. `heading` is the direction chosen before stepping.
     */
    method Move(sqrt: real -> real, keep: real, pick: nat, blockedPick: nat)
      requires IsSqrt(sqrt) && Valid()
      modifies this`x, this`y, this`direction, this`path
      ensures Valid()
      ensures Travelled(sqrt, old(x), old(y), old(direction), old(path), keep, pick, blockedPick)
    {
      if |path| > 0 && !frightened {
        FollowPath(sqrt);
        return;
      }
      ChooseHeading(sqrt, keep, pick);
      MoveInDirection(sqrt, blockedPick);
    }

    /**
     * The heading part of move: among getPossibleDirections, a frightened
     * ghost keeps its direction with probability 0.8 when it is still
     * possible (`keep` is the Math.random draw) and otherwise draws one at
     * random (index `pick`); any other ghost takes getBestDirection.
     */
    method ChooseHeading(sqrt: real -> real, keep: real, pick: nat)
      requires Valid()
      modifies this`direction
      ensures direction == Heading(sqrt, maze.layout, Here(), old(direction), eaten, frightened, Point(targetX, targetY), keep, pick)
    {
      var possibleDirections := GetPossibleDirections();
      PossibleDirectionsRule(maze.layout, Here(), direction, eaten);
      if frightened {
        if |possibleDirections| > 0 {
          if direction in possibleDirections && keep > 0.2 {
          } else {
            direction := possibleDirections[pick % |possibleDirections|];
          }
        }
      } else {
        ghost var bestIndex;
        direction, bestIndex := GetBestDirection(possibleDirections, sqrt);
        BestIsFirstLeast(Scorer(sqrt, Here(), old(direction), Point(targetX, targetY)), old(direction), possibleDirections, direction, bestIndex);
      }
    }

    /** The rolling loop of chooseRandomTarget: the first of 20 rolls off the walls becomes the target. */
    method RollTarget(rolls: seq<Cell>)
      requires |rolls| >= 20
      modifies this`targetX, this`targetY
      ensures match FirstOpenRoll(maze.layout, rolls[..20])
        case Some(c) => targetX == c.x as real && targetY == c.y as real
        case None => targetX == old(targetX) && targetY == old(targetY)
    {
      var valid := false;
      var attempts := 0;
      ghost var chosen := Cell(0, 0);
      while !valid && attempts < 20
        invariant 0 <= attempts <= 20
        invariant valid <==> FirstOpenRoll(maze.layout, rolls[..attempts]).Some?
        invariant !valid ==> targetX == old(targetX) && targetY == old(targetY)
        invariant valid ==>
          FirstOpenRoll(maze.layout, rolls[..attempts]) == Some(chosen) &&
          targetX == chosen.x as real && targetY == chosen.y as real
      {
        var randomX := rolls[attempts].x;
        var randomY := rolls[attempts].y;
        assert rolls[..attempts + 1][..attempts] == rolls[..attempts];
        FloorOfInt(randomX);
        FloorOfInt(randomY);
        if !IsWall(maze.layout, randomX as real, randomY as real) {
          targetX := randomX as real;
          targetY := randomY as real;
          valid := true;
          chosen := rolls[attempts];
        }
        attempts := attempts + 1;
      }
      if valid {
        FirstOpenPrefix(maze.layout, rolls, attempts, 20);
      }
    }

    /**
     * chooseRandomTarget: once a second, up to 20 rolls (the Random.intBetween
     * draws) until one lands off the walls, then plan a path to it.
     */
    method ChooseRandomTarget(rolls: seq<Cell>, sqrt: real -> real)
      requires IsSqrt(sqrt) && Valid() && |rolls| >= 20
      modifies this`targetX, this`targetY, this`path, this`pathUpdateTimer
      ensures Valid()
      ensures old(pathUpdateTimer) < 1000.0 ==> unchanged(this)
      ensures old(pathUpdateTimer) >= 1000.0 ==>
        pathUpdateTimer == 0.0 &&
        (match FirstOpenRoll(maze.layout, rolls[..20])
         case Some(c) => targetX == c.x as real && targetY == c.y as real
         case None => targetX == old(targetX) && targetY == old(targetY)) &&
        PlannedPath(maze.layout, false, Point(x, y), Point(targetX, targetY), path)
    {
      if pathUpdateTimer >= 1000.0 {
        RollAndPlan(rolls, sqrt);
      }
    }

    /** The body of chooseRandomTarget once the timer is due: roll a target, plan a path to it, restart the timer. */
    method RollAndPlan(rolls: seq<Cell>, sqrt: real -> real)
      requires IsSqrt(sqrt) && Valid() && |rolls| >= 20
      modifies this`targetX, this`targetY, this`path, this`pathUpdateTimer
      ensures Valid() && pathUpdateTimer == 0.0
      ensures match FirstOpenRoll(maze.layout, rolls[..20])
        case Some(c) => targetX == c.x as real && targetY == c.y as real
        case None => targetX == old(targetX) && targetY == old(targetY)
      ensures PlannedPath(maze.layout, false, Point(x, y), Point(targetX, targetY), path)
    {
      // updatePath neither reads nor writes the timer, so it is reset first
      pathUpdateTimer := 0.0;
      RollTarget(rolls);
      UpdatePath(false, sqrt);
    }

    /**
     * determineTarget: a frightened ghost wanders (chooseRandomTarget);
     * otherwise scatter aims at the home corner and chase at the
     * personality's chase target, with a new path every 500 ms.
     * A ghost that is in frightened mode without being frightened keeps
     * its target.
     */
    method DetermineTarget(player: PlayerView, blinky: Point, sqrt: real -> real, rolls: seq<Cell>)
      requires IsSqrt(sqrt) && Valid() && |rolls| >= 20
      modifies this`targetX, this`targetY, this`path, this`pathUpdateTimer
      ensures Valid()
      ensures frightened && old(pathUpdateTimer) < 1000.0 ==> unchanged(this)
      ensures frightened && old(pathUpdateTimer) >= 1000.0 ==>
        pathUpdateTimer == 0.0 &&
        (match FirstOpenRoll(maze.layout, rolls[..20])
         case Some(c) => targetX == c.x as real && targetY == c.y as real
         case None => targetX == old(targetX) && targetY == old(targetY)) &&
        PlannedPath(maze.layout, false, Point(x, y), Point(targetX, targetY), path)
      ensures !frightened ==>
        Point(targetX, targetY) ==
          match mode
          case Scatter => scatterTarget
          case Chase => ChaseTarget(sqrt, kind, Point(x, y), player, blinky)
          case Frightened => Point(old(targetX), old(targetY))
      ensures !frightened && old(pathUpdateTimer) < pathUpdateInterval ==>
        pathUpdateTimer == old(pathUpdateTimer) && path == old(path)
      ensures !frightened && old(pathUpdateTimer) >= pathUpdateInterval ==>
        pathUpdateTimer == 0.0 && PlannedPath(maze.layout, false, Point(x, y), Point(targetX, targetY), path)
    {
      if frightened {
        ChooseRandomTarget(rolls, sqrt);
        return;
      }
      match mode {
        case Scatter =>
          targetX := scatterTarget.x;
          targetY := scatterTarget.y;
        case Chase =>
          var target := ChaseTarget(sqrt, kind, Point(x, y), player, blinky);
          targetX := target.x;
          targetY := target.y;
        case Frightened =>
      }
      Replan(pathUpdateInterval, false, sqrt);
    }

    /**
     * A ghost as reset leaves it, when before the reset it had wait flag
     * `wasWaiting` and wait timer `wait`: at the start facing up, in scatter
     * mode for 7 s, calm, at base speed, without a path, the stuck detector
     * restarted at the start; every ghost but Blinky waits in the house for
     * its initial time, and Blinky keeps its wait flag and timer.
     */
    ghost predicate AtReset(wasWaiting: bool, wait: real)
      reads this
    {
      Valid() &&
      x == startX && y == startY && direction == Up && mode == Scatter && modeTimer == 7000.0 &&
      !frightened && !eaten && !recovering && path == [] && speed == baseSpeed &&
      stuckCheckCounter == 0 && lastPosition == Point(startX, startY) &&
      (kind != Blinky ==> waitingInHouse && waitTimer == InitialWaitTime(kind)) &&
      (kind == Blinky ==> waitingInHouse == wasWaiting && waitTimer == wait)
    }

    /**
     * reset: back to the start in scatter mode for 7 s, calm and without a
     * path; every ghost but Blinky waits in the house for its initial time.
     */
    method Reset()
      requires Valid()
      modifies this`x, this`y, this`direction, this`mode, this`modeTimer, this`frightened, this`eaten, this`recovering
      modifies this`path, this`speed, this`stuckCheckCounter, this`lastPosition, this`waitingInHouse, this`waitTimer
      ensures AtReset(old(waitingInHouse), old(waitTimer))
    {
      ResetPosition();
      ResetMode();
      if kind != Blinky {
        waitingInHouse := true;
        waitTimer := InitialWaitTime(kind);
      }
    }

    /** The position part of reset: at the start, facing up, no path, stuck detector restarted there. */
    method ResetPosition()
      requires Valid()
      modifies this`x, this`y, this`direction, this`path, this`stuckCheckCounter, this`lastPosition
      ensures Valid()
      ensures x == startX && y == startY && direction == Up && path == []
      ensures stuckCheckCounter == 0 && lastPosition == Point(startX, startY)
    {
      x := startX;
      y := startY;
      direction := Up;
      path := [];
      stuckCheckCounter := 0;
      lastPosition := Point(x, y);
    }

    /** The mode part of reset: 7 s of scatter, calm, at base speed. */
    method ResetMode()
      requires Valid()
      modifies this`mode, this`modeTimer, this`frightened, this`eaten, this`recovering, this`speed
      ensures Valid()
      ensures mode == Scatter && modeTimer == 7000.0 && !frightened && !eaten && !recovering && speed == baseSpeed
    {
      mode := Scatter;
      modeTimer := 7000.0;
      frightened := false;
      eaten := false;
      recovering := false;
      speed := baseSpeed;
    }

    /**
     * update: the timers and the stuck detector run every tick; then the
     * first of waiting in the house, leaving it and returning as eyes that
     * applies takes the tick; otherwise the ghost picks its target and moves.
     * `player` and `blinky` are the positions the personalities read, and
     * `dice` holds the random draws of this tick. `at` and `facing` are
     * where the ghost stands and what it faces once the timers and the stuck
     * detector have run, which is where the behaviour of Act starts.
     */
    method Update(dt: real, player: PlayerView, blinky: Point, sqrt: real -> real, dice: GhostDice)
      returns (ghost at: Point, ghost facing: Direction, ghost route: seq<Point>, ghost timer: real)
      requires IsSqrt(sqrt) && Valid() && |dice.rolls| >= 20
      modifies this`x, this`y, this`direction, this`speed, this`mode, this`frightened, this`eaten, this`recovering
      modifies this`waitingInHouse, this`leavingHouse, this`modeTimer, this`frightenedTimer, this`blinking, this`blinkTimer
      modifies this`recoverTimer, this`waitTimer, this`targetX, this`targetY, this`path, this`pathUpdateTimer
      modifies this`stuckCheckCounter, this`lastPosition
      ensures Valid()
      ensures at == if old(StuckNow()) then Center(old(Here())) else Point(old(x), old(y))
      ensures var dirs := AllPossibleDirections(maze.layout, old(Here()));
        facing == if old(StuckNow()) && |dirs| > 0 then dirs[dice.stuckPick % |dirs|] else old(TimedDirection(dt))
      ensures route == (if old(StuckNow()) then [] else old(path)) && timer == old(pathUpdateTimer) + dt
      ensures old(waitingInHouse) ==>
        Waited(dt, dice.bob, at.x, at.y, facing, old(waitTimer), Point(old(targetX), old(targetY)), timer, route,
               old(eaten), old(leavingHouse))
      ensures !old(waitingInHouse) && old(leavingHouse) ==>
        Leaving(sqrt, at.x, at.y, facing, old(waitTimer), Point(old(targetX), old(targetY)), timer, route, old(eaten))
      ensures !old(waitingInHouse) && !old(leavingHouse) ==>
        Roamed(player, blinky, sqrt, dice, at.x, at.y, facing, Point(old(targetX), old(targetY)), timer, route, old(eaten))
      ensures StuckChecked(old(Detector()), stuckCheckCounter, lastPosition)
      ensures ModeTicked(old(Timers()), Clock(), dt)
      ensures old(waitingInHouse) || old(leavingHouse) || !old(eaten) || !IsInGhostHouse(maze.layout, at.x, at.y) ==>
        FrightTicked(old(Timers()), Fright()) && RecoveryTicked(old(Timers()), Recovering(), dt)
    {
      Prelude(dt, sqrt, dice.stuckPick);
      at, facing, route, timer := Point(x, y), direction, path, pathUpdateTimer;
      Act(dt, player, blinky, sqrt, dice);
    }

    /** The part of update before the behaviour: the timers, then the stuck detector. */
    method Prelude(dt: real, sqrt: real -> real, pick: nat)
      requires IsSqrt(sqrt) && Valid()
      modifies this`pathUpdateTimer, this`mode, this`modeTimer, this`direction, this`frightened, this`frightenedTimer
      modifies this`blinking, this`blinkTimer, this`speed, this`recovering, this`recoverTimer
      modifies this`x, this`y, this`path, this`stuckCheckCounter, this`lastPosition
      ensures Valid()
      ensures Point(x, y) == (if old(StuckNow()) then Center(old(Here())) else Point(old(x), old(y))) && Here() == old(Here())
      ensures var dirs := AllPossibleDirections(maze.layout, old(Here()));
        direction == if old(StuckNow()) && |dirs| > 0 then dirs[pick % |dirs|] else old(TimedDirection(dt))
      ensures path == (if old(StuckNow()) then [] else old(path)) && pathUpdateTimer == old(pathUpdateTimer) + dt
      ensures StuckChecked(old(Detector()), stuckCheckCounter, lastPosition)
      ensures waitingInHouse == old(waitingInHouse) && leavingHouse == old(leavingHouse) && eaten == old(eaten) &&
        waitTimer == old(waitTimer) && targetX == old(targetX) && targetY == old(targetY)
      ensures ModeTicked(old(Timers()), Clock(), dt) && FrightTicked(old(Timers()), Fright()) && RecoveryTicked(old(Timers()), Recovering(), dt)
    {
      ManageTimers(dt);
      CheckForStuckState(sqrt, pick);
    }

    /** The behaviour part of update, after the timers and the stuck detector. */
    method Act(dt: real, player: PlayerView, blinky: Point, sqrt: real -> real, dice: GhostDice)
      requires IsSqrt(sqrt) && Valid() && |dice.rolls| >= 20
      modifies this`x, this`y, this`direction, this`speed, this`frightened, this`eaten, this`recovering
      modifies this`waitingInHouse, this`leavingHouse, this`recoverTimer, this`waitTimer
      modifies this`targetX, this`targetY, this`path, this`pathUpdateTimer
      ensures Valid()
      ensures old(waitingInHouse) ==>
        Waited(dt, dice.bob, old(x), old(y), old(direction), old(waitTimer), Point(old(targetX), old(targetY)), old(pathUpdateTimer),
               old(path), old(eaten), old(leavingHouse))
      ensures !old(waitingInHouse) && old(leavingHouse) ==>
        Leaving(sqrt, old(x), old(y), old(direction), old(waitTimer), Point(old(targetX), old(targetY)), old(pathUpdateTimer),
                old(path), old(eaten))
      ensures !old(waitingInHouse) && !old(leavingHouse) ==>
        Roamed(player, blinky, sqrt, dice, old(x), old(y), old(direction), Point(old(targetX), old(targetY)), old(pathUpdateTimer),
               old(path), old(eaten))
      ensures old(waitingInHouse) || old(leavingHouse) || !old(eaten) || !IsInGhostHouse(maze.layout, old(x), old(y)) ==>
        frightened == old(frightened) && speed == old(speed) && recovering == old(recovering) && recoverTimer == old(recoverTimer)
      ensures mode == old(mode) && modeTimer == old(modeTimer) && frightenedTimer == old(frightenedTimer) &&
        blinking == old(blinking) && blinkTimer == old(blinkTimer) && previousMode == old(previousMode)
    {
      if waitingInHouse || leavingHouse {
        Housed(dt, sqrt, dice.bob);
      } else {
        Roam(player, blinky, sqrt, dice);
      }
    }

    /** The part of update for a ghost waiting in the house or leaving it. */
    method Housed(dt: real, sqrt: real -> real, bob: real)
      requires IsSqrt(sqrt) && Valid() && (waitingInHouse || leavingHouse)
      modifies this`x, this`y, this`direction, this`waitingInHouse, this`leavingHouse, this`waitTimer
      ensures Valid()
      ensures old(waitingInHouse) ==>
        Waited(dt, bob, old(x), old(y), old(direction), old(waitTimer), Point(old(targetX), old(targetY)), old(pathUpdateTimer),
               old(path), old(eaten), old(leavingHouse))
      ensures !old(waitingInHouse) ==>
        Leaving(sqrt, old(x), old(y), old(direction), old(waitTimer), Point(old(targetX), old(targetY)), old(pathUpdateTimer),
                old(path), old(eaten))
    {
      if waitingInHouse {
        HandleWaitingInHouse(dt, bob);
      } else {
        HandleLeavingHouse(sqrt);
      }
    }

    /**
     * The part of update for a ghost out of the house states: eyes go home
     * (handleEatenState); any other ghost picks its target and moves.
     */
    method Roam(player: PlayerView, blinky: Point, sqrt: real -> real, dice: GhostDice)
      requires IsSqrt(sqrt) && Valid() && |dice.rolls| >= 20
      modifies this`x, this`y, this`direction, this`speed, this`frightened, this`eaten, this`recovering
      modifies this`waitingInHouse, this`recoverTimer, this`waitTimer
      modifies this`targetX, this`targetY, this`path, this`pathUpdateTimer
      ensures Valid()
      ensures Roamed(player, blinky, sqrt, dice, old(x), old(y), old(direction), Point(old(targetX), old(targetY)), old(pathUpdateTimer),
                     old(path), old(eaten))
      ensures !old(eaten) || !IsInGhostHouse(maze.layout, old(x), old(y)) ==>
        frightened == old(frightened) && speed == old(speed) && recovering == old(recovering) && recoverTimer == old(recoverTimer)
    {
      if eaten {
        HandleEatenState(sqrt);
        return;
      }
      DetermineTarget(player, blinky, sqrt, dice.rolls);
      ghost var p := path;
      assert Replanned(maze.layout, false, Point(old(x), old(y)), Point(targetX, targetY), old(pathUpdateTimer),
                       if frightened then 1000.0 else pathUpdateInterval, old(path), p);
      Move(sqrt, dice.keep, dice.pick, dice.blockedPick);
    }
  }
}
