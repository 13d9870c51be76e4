/**
 * The Player object: Pac-Man's buffered-turn steering, the power-mode
 * countdown, pellet eating through the map and the arbitration of a
 * collision with a ghost.
 */
module Players {
  import opened Wrappers
  import opened Geometry
  import opened Layout
  import opened Collision
  import opened MazeMap
  import Ghosts

  const PlayerRadius: real := 0.4
  const PlayerBaseSpeed: real := 0.1
  const PowerModeDuration: real := 7000.0

  /** The point `dist` ahead of (x, y) in direction d. */
  function Probe(x: real, y: real, d: Direction, dist: real): (p: Point)
    ensures p.x == x + DeltaX(d) as real * dist && p.y == y + DeltaY(d) as real * dist
  {
    match d
    case Up => Point(x, y - dist)
    case Down => Point(x, y + dist)
    case Left => Point(x - dist, y)
    case Right => Point(x + dist, y)
  }

  /**
   * canMove for a known direction: the probe 0.9 radii ahead either leaves
   * the map sideways (the tunnel) or is a valid position for a circle of
   * 0.7 radii.
   */
  ghost predicate Movable(g: Grid, x: real, y: real, d: Direction)
  {
    var p := Probe(x, y, d, PlayerRadius * 0.9);
    p.x < 0.0 || p.x >= Width as real || ValidPosition(g, p.x, p.y, PlayerRadius * 0.7)
  }

  /** A probe in the wall part of a wall cell inside the map blocks the way. */
  lemma WallBlocks(g: Grid, x: real, y: real, d: Direction)
    requires var p := Probe(x, y, d, PlayerRadius * 0.9);
      0.0 <= p.x < Width as real && 0.0 <= p.y < Height as real && IsWall(g, p.x, p.y) &&
      p.x - p.x.Floor as real <= 0.8 && p.y - p.y.Floor as real <= 0.8
    ensures !Movable(g, x, y, d)
  {
    var p := Probe(x, y, d, PlayerRadius * 0.9);
    InsideWallInvalid(g, p.x, p.y, PlayerRadius * 0.7);
  }

  /** A probe inside the map with no wall in the 3 by 3 cells around it lets the player move. */
  lemma OpenWay(g: Grid, x: real, y: real, d: Direction)
    requires var p := Probe(x, y, d, PlayerRadius * 0.9);
      0.0 <= p.x < Width as real && 0.0 <= p.y < Height as real &&
      forall cx, cy :: p.x.Floor - 1 <= cx <= p.x.Floor + 1 && p.y.Floor - 1 <= cy <= p.y.Floor + 1 ==> CellType(g, cx, cy) != Wall
    ensures Movable(g, x, y, d)
  {
    var p := Probe(x, y, d, PlayerRadius * 0.9);
    OpenCellsValid(g, p.x, p.y, PlayerRadius * 0.7);
  }

  /** The step of update: `speed` along d, through the side tunnel when the map is left sideways. */
  function StepWrap(x: real, y: real, d: Direction, speed: real): (p: Point)
    ensures p.y == y + DeltaY(d) as real * speed
    ensures 0.0 <= x + DeltaX(d) as real * speed < Width as real ==> p.x == x + DeltaX(d) as real * speed
    ensures x + DeltaX(d) as real * speed < 0.0 ==> p.x == Width as real - 1.0
    ensures x + DeltaX(d) as real * speed >= Width as real ==> p.x == 0.0
  {
    var nx := x + DeltaX(d) as real * speed;
    Point(if nx < 0.0 then Width as real - 1.0 else if nx >= Width as real then 0.0 else nx, y + DeltaY(d) as real * speed)
  }

  /** Half the way from v to the centre of its cell. */
  function HalfwayToCentre(v: real): real
  {
    v + (v.Floor as real + 0.5 - v) * 0.5
  }

  /** The nudge halves the distance to the centre of the cell and stays in the cell. */
  lemma HalfwayCloser(v: real)
    ensures var c := v.Floor as real + 0.5;
      HalfwayToCentre(v) - c == (v - c) * 0.5 && HalfwayToCentre(v).Floor == v.Floor
  {
  }

  /**
   * The centring of a blocked update: across the heading, half the way to
   * the cell centre, when that offset is below half the speed and the
   * nudged point is valid for the collision radius.
   */
  ghost function Nudged(g: Grid, x: real, y: real, d: Direction, speed: real): Point
  {
    var cr := PlayerRadius * 0.75;
    if d == Up || d == Down then
      var adjustment := (x.Floor as real + 0.5 - x) * 0.5;
      if AbsReal(adjustment) < speed * 0.5 && ValidPosition(g, x + adjustment, y, cr) then Point(x + adjustment, y) else Point(x, y)
    else
      var adjustment := (y.Floor as real + 0.5 - y) * 0.5;
      if AbsReal(adjustment) < speed * 0.5 && ValidPosition(g, x, y + adjustment, cr) then Point(x, y + adjustment) else Point(x, y)
  }

  /** Where one update moves the player from (x, y) heading d at `speed`. */
  ghost function Moved(g: Grid, x: real, y: real, d: Direction, speed: real): Point
  {
    if !Movable(g, x, y, d) then Point(x, y)
    else
      var p := StepWrap(x, y, d, speed);
      if ValidPosition(g, p.x, p.y, PlayerRadius * 0.75) then p else Nudged(g, x, y, d, speed)
  }

  /** The player stays put or lands on a position valid for its collision radius. */
  lemma MovedIsValidOrStill(g: Grid, x: real, y: real, d: Direction, speed: real)
    ensures var p := Moved(g, x, y, d, speed);
      p == Point(x, y) || ValidPosition(g, p.x, p.y, PlayerRadius * 0.75)
  {
  }

  /** The tunnel keeps the player's column on the map. */
  lemma MovedStaysInColumns(g: Grid, x: real, y: real, d: Direction, speed: real)
    requires 0.0 <= x < Width as real
    ensures 0.0 <= Moved(g, x, y, d, speed).x < Width as real
  {
    HalfwayCloser(x);
    assert 0 <= x.Floor < Width;
  }

  /** A nudge never takes the player further from the centre line of its row or column. */
  lemma NudgeCentres(g: Grid, x: real, y: real, d: Direction, speed: real)
    ensures var p := Nudged(g, x, y, d, speed);
      (d == Up || d == Down ==> p.y == y && AbsReal(p.x - (x.Floor as real + 0.5)) <= AbsReal(x - (x.Floor as real + 0.5))) &&
      (d == Left || d == Right ==> p.x == x && AbsReal(p.y - (y.Floor as real + 0.5)) <= AbsReal(y - (y.Floor as real + 0.5)))
  {
    HalfwayCloser(x);
    HalfwayCloser(y);
  }

  /** The power-mode fields of the player. */
  datatype Charge = Charge(on: bool, timer: real, warning: bool)

  /** One update of the power-mode countdown by dt milliseconds. */
  function PowerTick(p: Charge, dt: real): (r: Charge)
    ensures !p.on ==> r == p
    ensures p.on ==> r.timer == p.timer - dt && (r.on <==> r.timer > 0.0) && (r.warning <==> r.on && r.timer <= 2000.0)
  {
    if !p.on then p
    else
      var t := p.timer - dt;
      if t <= 0.0 then Charge(false, t, false) else Charge(true, t, t <= 2000.0)
  }

  /** Successive updates by the given frame times. */
  function PowerRun(p: Charge, dts: seq<real>): Charge
    decreases |dts|
  {
    if dts == [] then p else PowerRun(PowerTick(p, dts[0]), dts[1..])
  }

  /** While power mode is on, its timer is positive and the warning shows exactly in the last 2000 ms. */
  predicate ChargeOk(p: Charge)
  {
    p.on ==> p.timer > 0.0 && (p.warning <==> p.timer <= 2000.0)
  }

  /** Activation gives a sound charge, and every update keeps one. */
  lemma PowerTickOk(p: Charge, dt: real)
    requires ChargeOk(p)
    ensures ChargeOk(Charge(true, PowerModeDuration, false))
    ensures ChargeOk(PowerTick(p, dt))
  {
  }

  function Sum(dts: seq<real>): real
    decreases |dts|
  {
    if dts == [] then 0.0 else dts[0] + Sum(dts[1..])
  }

  lemma {:induction false} SumNonNegative(dts: seq<real>)
    requires forall i :: 0 <= i < |dts| ==> dts[i] >= 0.0
    ensures Sum(dts) >= 0.0
    decreases |dts|
  {
    if dts != [] {
      SumNonNegative(dts[1..]);
    }
  }

  lemma {:induction false} PowerOffStays(p: Charge, dts: seq<real>)
    requires !p.on
    ensures PowerRun(p, dts) == p
    decreases |dts|
  {
    if dts != [] {
      PowerOffStays(PowerTick(p, dts[0]), dts[1..]);
    }
  }

  /**
   * Power mode lasts exactly while the frame times add up to less than the
   * timer, which counts down by that sum; once it ends the warning is off.
   */
  lemma {:induction false} PowerLasts(p: Charge, dts: seq<real>)
    requires p.on && ChargeOk(p) && forall i :: 0 <= i < |dts| ==> dts[i] >= 0.0
    ensures PowerRun(p, dts).on <==> Sum(dts) < p.timer
    ensures PowerRun(p, dts).on ==> PowerRun(p, dts).timer == p.timer - Sum(dts)
    ensures !PowerRun(p, dts).on ==> !PowerRun(p, dts).warning
    ensures ChargeOk(PowerRun(p, dts))
    decreases |dts|
  {
    if dts != [] {
      var q := PowerTick(p, dts[0]);
      var rest := dts[1..];
      assert forall i :: 0 <= i < |rest| ==> rest[i] == dts[i + 1];
      if q.on {
        PowerLasts(q, rest);
      } else {
        PowerOffStays(q, rest);
        SumNonNegative(rest);
      }
    }
  }

  /** From activation, power mode lasts for 7000 ms of frame time and warns once 5000 of them have passed. */
  lemma PowerWindow(dts: seq<real>)
    requires forall i :: 0 <= i < |dts| ==> dts[i] >= 0.0
    ensures PowerRun(Charge(true, PowerModeDuration, false), dts).on <==> Sum(dts) < 7000.0
    ensures PowerRun(Charge(true, PowerModeDuration, false), dts).warning <==> 5000.0 <= Sum(dts) < 7000.0
  {
    PowerLasts(Charge(true, PowerModeDuration, false), dts);
  }

  function Pow2(k: nat): (r: nat)
    ensures r >= 1
  {
    if k == 0 then 1 else 2 * Pow2(k - 1)
  }

  /** The points for the ghost eaten after k others in one power window. */
  function GhostPoints(k: nat): (r: nat)
    ensures r >= 200
  {
    200 * Pow2(k)
  }

  /** Each further ghost of a power window doubles the score: 200, 400, 800, 1600. */
  lemma GhostPointsDouble(k: nat)
    ensures GhostPoints(k + 1) == 2 * GhostPoints(k)
    ensures GhostPoints(0) == 200 && GhostPoints(1) == 400 && GhostPoints(2) == 800 && GhostPoints(3) == 1600
  {
  }

  class Player {
    const maze: GameMap
    const radius: real := PlayerRadius
    const baseSpeed: real := PlayerBaseSpeed
    const powerModeDuration: real := PowerModeDuration

    var x: real
    var y: real
    var speed: real
    var direction: Direction
    var nextDirection: Option<Direction>
    var alive: bool
    var powerMode: bool
    var powerModeTimer: real
    var powerModeEndWarning: bool
    var score: int
    var lives: int
    var hasMovedOnce: bool

    /** The power-mode fields taken together. */
    function PowerState(): Charge
      reads this`powerMode, this`powerModeTimer, this`powerModeEndWarning
    {
      Charge(powerMode, powerModeTimer, powerModeEndWarning)
    }

    constructor(x: real, y: real, maze: GameMap)
      ensures this.x == x && this.y == y && this.maze == maze
      ensures speed == 0.1 && direction == Right && nextDirection == None && alive
      ensures !powerMode && powerModeTimer == 0.0 && !powerModeEndWarning
      ensures score == 0 && lives == 3 && !hasMovedOnce
    {
      this.x, this.y, this.maze := x, y, maze;
      speed := 0.1;
      direction := Right;
      nextDirection := None;
      alive := true;
      powerMode, powerModeTimer, powerModeEndWarning := false, 0.0, false;
      score, lives := 0, 3;
      hasMovedOnce := false;
    }

    /** canMove: false for a name that is not a direction, otherwise the probe described by Movable. */
    method CanMove(name: string) returns (r: bool)
      ensures r <==> Parse(name).Some? && Movable(maze.layout, x, y, Parse(name).value)
    {
      var checkRadius := radius * 0.7;
      var newX, newY := x, y;
      var checkDistance := radius * 0.9;
      if name == "up" {
        newY := newY - checkDistance;
      } else if name == "down" {
        newY := newY + checkDistance;
      } else if name == "left" {
        newX := newX - checkDistance;
      } else if name == "right" {
        newX := newX + checkDistance;
      } else {
        return false;
      }
      if newX < 0.0 {
        return true;
      } else if newX >= maze.width as real {
        return true;
      }
      r := maze.IsValidPosition(newX, newY, checkRadius);
    }

    /** setDirection: ignore anything but the four names; turn now if possible, else remember the wish. */
    method SetDirection(name: string)
      modifies this`direction, this`nextDirection
      ensures Parse(name).None? ==> unchanged(this)
      ensures Parse(name).Some? && Movable(maze.layout, x, y, Parse(name).value) ==>
        direction == Parse(name).value && nextDirection == None
      ensures Parse(name).Some? && !Movable(maze.layout, x, y, Parse(name).value) ==>
        direction == old(direction) && nextDirection == Parse(name)
    {
      var d := Parse(name);
      if d.None? {
        return;
      }
      var ok := CanMove(name);
      if ok {
        direction := d.value;
        nextDirection := None;
      } else {
        nextDirection := d;
      }
    }

    /** update: a dead player stays as it is; otherwise count power mode down, take a buffered turn, then move. */
    method Update(dt: real)
      modifies this`powerMode, this`powerModeTimer, this`powerModeEndWarning, this`speed
      modifies this`direction, this`nextDirection, this`hasMovedOnce, this`x, this`y
      ensures !old(alive) ==> unchanged(this)
      ensures old(alive) ==> PowerState() == PowerTick(old(PowerState()), dt)
      ensures old(alive) ==> speed == if old(powerMode) && !powerMode then baseSpeed else old(speed)
      ensures old(alive) && old(nextDirection).Some? && Movable(maze.layout, old(x), old(y), old(nextDirection).value) ==>
        direction == old(nextDirection).value && nextDirection == None
      ensures old(alive) && !(old(nextDirection).Some? && Movable(maze.layout, old(x), old(y), old(nextDirection).value)) ==>
        direction == old(direction) && nextDirection == old(nextDirection)
      ensures old(alive) ==> Point(x, y) == Moved(maze.layout, old(x), old(y), direction, speed)
    {
      if !alive {
        return;
      }
      TickPowerMode(dt);
      TakeBufferedTurn();
      Advance();
    }

    /** The power-mode part of update. */
    method TickPowerMode(dt: real)
      modifies this`powerMode, this`powerModeTimer, this`powerModeEndWarning, this`speed
      ensures PowerState() == PowerTick(old(PowerState()), dt)
      ensures speed == if old(powerMode) && !powerMode then baseSpeed else old(speed)
    {
      if powerMode {
        powerModeTimer := powerModeTimer - dt;
        powerModeEndWarning := powerModeTimer <= 2000.0;
        if powerModeTimer <= 0.0 {
          powerMode := false;
          powerModeEndWarning := false;
          speed := baseSpeed;
        }
      }
    }

    /** The buffered turn of update. */
    method TakeBufferedTurn()
      modifies this`direction, this`nextDirection, this`hasMovedOnce
      ensures old(nextDirection).Some? && Movable(maze.layout, x, y, old(nextDirection).value) ==>
        direction == old(nextDirection).value && nextDirection == None && hasMovedOnce
      ensures !(old(nextDirection).Some? && Movable(maze.layout, x, y, old(nextDirection).value)) ==> unchanged(this)
    {
      if nextDirection.Some? {
        ParseName(nextDirection.value);
        var ok := CanMove(Name(nextDirection.value));
        if ok {
          direction := nextDirection.value;
          nextDirection := None;
          hasMovedOnce := true;
        }
      }
    }

    /** The movement of update: a step with the tunnel, or else a nudge towards the centre line. */
    method Advance()
      modifies this`x, this`y, this`hasMovedOnce
      ensures Point(x, y) == Moved(maze.layout, old(x), old(y), direction, speed)
      ensures hasMovedOnce == (old(hasMovedOnce) || (Movable(maze.layout, old(x), old(y), direction) &&
        var p := StepWrap(old(x), old(y), direction, speed); ValidPosition(maze.layout, p.x, p.y, radius * 0.75)))
    {
      ParseName(direction);
      var ok := CanMove(Name(direction));
      if ok {
        StepOrCentre();
      }
    }

    /** A step that CanMove allowed: taken when valid, and otherwise replaced by the centring. */
    method StepOrCentre()
      modifies this`x, this`y, this`hasMovedOnce
      ensures var p := StepWrap(old(x), old(y), direction, speed);
        if ValidPosition(maze.layout, p.x, p.y, radius * 0.75) then Point(x, y) == p && hasMovedOnce
        else Point(x, y) == Nudged(maze.layout, old(x), old(y), direction, speed) && hasMovedOnce == old(hasMovedOnce)
    {
      var newX, newY := x, y;
      match direction {
        case Up => newY := newY - speed;
        case Down => newY := newY + speed;
        case Left => newX := newX - speed;
        case Right => newX := newX + speed;
      }
      assert newX == x + DeltaX(direction) as real * speed && newY == y + DeltaY(direction) as real * speed;
      if newX < 0.0 {
        newX := maze.width as real - 1.0;
      } else if newX >= maze.width as real {
        newX := 0.0;
      }
      assert Point(newX, newY) == StepWrap(x, y, direction, speed);
      var collisionRadius := radius * 0.75;
      var valid := maze.IsValidPosition(newX, newY, collisionRadius);
      if valid {
        x, y := newX, newY;
        hasMovedOnce := true;
      } else {
        Centre();
      }
    }

    /** The centring step of a blocked move. */
    method Centre()
      modifies this`x, this`y
      ensures Point(x, y) == Nudged(maze.layout, old(x), old(y), direction, speed)
    {
      var collisionRadius := radius * 0.75;
      var currentCellX := x.Floor;
      var currentCellY := y.Floor;
      if direction == Up || direction == Down {
        var targetX := currentCellX as real + 0.5;
        var adjustment := (targetX - x) * 0.5;
        if AbsReal(adjustment) < speed * 0.5 {
          var newX := x + adjustment;
          var valid := maze.IsValidPosition(newX, y, collisionRadius);
          if valid {
            x := newX;
          }
        }
      } else {
        var targetY := currentCellY as real + 0.5;
        var adjustment := (targetY - y) * 0.5;
        if AbsReal(adjustment) < speed * 0.5 {
          var newY := y + adjustment;
          var valid := maze.IsValidPosition(x, newY, collisionRadius);
          if valid {
            y := newY;
          }
        }
      }
    }

    /** checkPellets: eat what the map holds in the player's cell, score it, and a power pellet powers up. */
    method CheckPellets() returns (hit: Option<PelletHit>)
      requires maze.Valid()
      modifies maze, this`score, this`powerMode, this`powerModeTimer, this`powerModeEndWarning, this`speed
      ensures maze.Valid()
      ensures hit == PelletAt(old(maze.layout), x, y) && maze.layout == EatAt(old(maze.layout), x, y)
      ensures maze.pelletsEaten == old(maze.pelletsEaten) + (if hit == Some(PelletHit(Dot, 10)) then 1 else 0)
      ensures maze.powerPelletsEaten == old(maze.powerPelletsEaten) + (if hit == Some(PelletHit(Power, 50)) then 1 else 0)
      ensures maze.pelletsTotal == old(maze.pelletsTotal) && maze.powerPelletsTotal == old(maze.powerPelletsTotal)
      ensures score == old(score) + (if hit.Some? then hit.value.points else 0)
      ensures hit == Some(PelletHit(Power, 50)) ==>
        PowerState() == Charge(true, powerModeDuration, false) && speed == baseSpeed * 1.2
      ensures hit != Some(PelletHit(Power, 50)) ==> PowerState() == old(PowerState()) && speed == old(speed)
    {
      hit := maze.CheckAndRemovePellet(x, y);
      if hit.Some? {
        score := score + hit.value.points;
        if hit.value.kind == Power {
          ActivatePowerMode();
        }
      }
    }

    /** activatePowerMode: a full timer, no warning, 1.2 times the base speed. */
    method ActivatePowerMode()
      modifies this`powerMode, this`powerModeTimer, this`powerModeEndWarning, this`speed
      ensures PowerState() == Charge(true, powerModeDuration, false) && speed == baseSpeed * 1.2
    {
      powerMode := true;
      powerModeTimer := powerModeDuration;
      powerModeEndWarning := false;
      speed := baseSpeed * 1.2;
    }

    /** checkGhostCollision: the centres are closer than the radii together less 0.1, decided on squares. */
    function CheckGhostCollision(sqrt: real -> real, g: Ghosts.Ghost): (r: bool)
      requires IsSqrt(sqrt)
      reads this`x, this`y, g`x, g`y
      ensures r <==> Square(x - g.x) + Square(y - g.y) < 0.49
    {
      var distance2 := Square(x - g.x) + Square(y - g.y);
      SumOfSquaresNonNegative(x - g.x, y - g.y);
      SqrtLess(sqrt, distance2, radius + g.radius - 0.1);
      sqrt(distance2) < radius + g.radius - 0.1
    }

    /**
     * collideWithGhost: powered up and facing a ghost that is not recovering,
     * eat it for 200 * 2^k points (k ghosts eaten before in this window);
     * otherwise die when the ghost is neither frightened nor eaten.
     */
    method CollideWithGhost(g: Ghosts.Ghost, eatenGhostCount: nat) returns (points: int)
      requires g.Valid()
      modifies g`eaten, g`frightened, g`speed, this`score, this`alive, this`lives
      ensures g.Valid()
      ensures powerMode && !g.recovering ==>
        points == GhostPoints(eatenGhostCount) && score == old(score) + points &&
        g.eaten && !g.frightened && g.speed == g.baseSpeed * 2.0 &&
        alive == old(alive) && lives == old(lives)
      ensures !(powerMode && !g.recovering) ==> points == 0 && score == old(score) && unchanged(g)
      ensures !(powerMode && !g.recovering) && !g.frightened && !g.eaten ==>
        !alive && lives == old(lives) - (if old(alive) then 1 else 0)
      ensures !(powerMode && !g.recovering) && (g.frightened || g.eaten) ==>
        alive == old(alive) && lives == old(lives)
    {
      if powerMode && !g.recovering {
        g.GetEaten();
        var ghostPoints := GhostPoints(eatenGhostCount);
        score := score + ghostPoints;
        return ghostPoints;
      } else if !g.frightened && !g.eaten {
        Die();
        return 0;
      }
      return 0;
    }

    /** die: only a living player dies, losing exactly one life. */
    method Die()
      modifies this`alive, this`lives
      ensures !alive
      ensures lives == old(lives) - (if old(alive) then 1 else 0)
    {
      if !alive {
        return;
      }
      alive := false;
      lives := lives - 1;
    }

    /** reset: a new life at (x, y) heading right at 1.2 times the base speed; the power warning is kept. */
    method Reset(x: real, y: real)
      modifies this`x, this`y, this`direction, this`nextDirection, this`alive
      modifies this`powerMode, this`powerModeTimer, this`speed, this`hasMovedOnce
      ensures this.x == x && this.y == y && direction == Right && nextDirection == None && alive
      ensures !powerMode && powerModeTimer == 0.0 && speed == baseSpeed * 1.2 && !hasMovedOnce
    {
      this.x, this.y := x, y;
      direction := Right;
      nextDirection := None;
      alive := true;
      powerMode := false;
      powerModeTimer := 0.0;
      speed := baseSpeed * 1.2;
      hasMovedOnce := false;
    }
  }
}
