/**
 * The Game object without its DOM, audio and storage parts: the game
 * states, the per-level scaling, the eaten-ghost chain, the fruit, the high
 * score and the order of one playing tick.
 */
module Games {
  import opened Wrappers
  import opened Geometry
  import opened Layout
  import opened Collision
  import opened MazeMap
  import opened Players
  import opened Animation
  import Ghosts

  datatype GameState = Start | Playing | Paused | GameOver | LevelComplete

  /** The keys the game reacts to: the arrows, Escape/p/P, r/R, and anything else. */
  datatype Key = Arrow(d: Direction) | PauseKey | RestartKey | OtherKey

  /** The four ghosts in the order createGhosts builds them. */
  const Roster: seq<Ghosts.Kind> := [Ghosts.Blinky, Ghosts.Pinky, Ghosts.Inky, Ghosts.Clyde]

  function MinReal(a: real, b: real): real { if a <= b then a else b }
  function MaxReal(a: real, b: real): real { if a >= b then a else b }

  /** The player's speed factor for a level: 5% more per level, at most double. */
  function PlayerSpeedMultiplier(level: int): real
  {
    MinReal(2.0, 1.0 + (level - 1) as real * 0.05)
  }

  /** The ghosts' speed factor for a level: 8% more per level, at most double. */
  function GhostSpeedMultiplier(level: int): real
  {
    MinReal(2.0, 1.0 + (level - 1) as real * 0.08)
  }

  /** The frightened-time factor for a level: 15% less per level, at most 75% less. */
  function FrightenedReduction(level: int): real
  {
    1.0 - MinReal(0.75, (level - 1) as real * 0.15)
  }

  /** The frightened duration a level gives each ghost, never below two seconds. */
  function FrightenedDurationFor(level: int): real
  {
    MaxReal(2000.0, 7000.0 * FrightenedReduction(level))
  }

  /** The frightened timer that activation sets on a level above the first. */
  function ActivationTimer(duration: real, level: int): real
  {
    MaxReal(2000.0, duration * FrightenedReduction(level))
  }

  /** From the first level on, every factor stays within its bounds. */
  lemma ScalingBounds(level: int)
    requires level >= 1
    ensures 1.0 <= PlayerSpeedMultiplier(level) <= 2.0
    ensures 1.0 <= GhostSpeedMultiplier(level) <= 2.0
    ensures 0.25 <= FrightenedReduction(level) <= 1.0
    ensures 2000.0 <= FrightenedDurationFor(level) <= 7000.0
    ensures level >= 11 ==> GhostSpeedMultiplier(level) == 1.8 + (level - 11) as real * 0.08 || GhostSpeedMultiplier(level) == 2.0
  {
  }

  /** Speeds never fall as the level rises, and the frightened time never grows. */
  lemma ScalingMonotone(a: int, b: int)
    requires 1 <= a <= b
    ensures PlayerSpeedMultiplier(a) <= PlayerSpeedMultiplier(b)
    ensures GhostSpeedMultiplier(a) <= GhostSpeedMultiplier(b)
    ensures FrightenedDurationFor(b) <= FrightenedDurationFor(a)
  {
    assert (a - 1) as real <= (b - 1) as real;
    MulMono((a - 1) as real, (b - 1) as real, 0.15, (a - 1) as real * 0.15, (b - 1) as real * 0.15);
    MulMono(FrightenedReduction(b), FrightenedReduction(a), 7000.0, FrightenedReduction(b) * 7000.0, FrightenedReduction(a) * 7000.0);
  }

  /** The speed a ghost of kind k gets on a level: its base speed times the level's multiplier. */
  function GhostLevelSpeed(k: Ghosts.Kind, level: int): (r: real)
    requires level >= 1
    ensures 0.08 <= r <= 0.18
  {
    ScalingBounds(level);
    if k == Ghosts.Blinky then 0.09 * GhostSpeedMultiplier(level) else 0.08 * GhostSpeedMultiplier(level)
  }

  /** That speed is the product of the kind's base speed and the level multiplier, and Blinky stays fastest. */
  lemma GhostLevelSpeedProduct(k: Ghosts.Kind, level: int)
    requires level >= 1
    ensures GhostLevelSpeed(k, level) == Ghosts.BaseSpeedOf(k) * GhostSpeedMultiplier(level)
    ensures k != Ghosts.Blinky ==> GhostLevelSpeed(k, level) < GhostLevelSpeed(Ghosts.Blinky, level)
  {
    ScalingBounds(level);
  }

  /** The speed the player gets on a level: base speed 0.1, times the level multiplier, times 1.2. */
  function PlayerLevelSpeed(level: int): (r: real)
    requires level >= 1
    ensures 0.12 <= r <= 0.24
  {
    ScalingBounds(level);
    0.1 * PlayerSpeedMultiplier(level) * 1.2
  }

  /**
   * Activation applies the level's reduction to a duration that already
   * carries it, so the timer is the twice-reduced time unless that falls
   * below two seconds.
   */
  lemma DoubleReduction(level: int)
    requires level > 1
    ensures var r := FrightenedReduction(level);
      ActivationTimer(FrightenedDurationFor(level), level) >= 2000.0 &&
      ActivationTimer(FrightenedDurationFor(level), level) <= FrightenedDurationFor(level) &&
      (7000.0 * r * r >= 2000.0 ==> ActivationTimer(FrightenedDurationFor(level), level) == 7000.0 * r * r)
  {
    var r := FrightenedReduction(level);
    ScalingBounds(level);
    var d := FrightenedDurationFor(level);
    MulMono(r, 1.0, d, r * d, d);
    if 7000.0 * r * r >= 2000.0 {
      MulMono(r, 1.0, 7000.0 * r, 7000.0 * r * r, 7000.0 * r);
      assert 7000.0 * r >= 2000.0;
      assert d == 7000.0 * r;
    }
  }

  /** On the second level the ghosts stay frightened 5057.5 ms rather than the 5950 ms of their duration. */
  lemma SecondLevelFrightenedTime()
    ensures FrightenedDurationFor(2) == 5950.0
    ensures ActivationTimer(FrightenedDurationFor(2), 2) == 5057.5
  {
  }

  datatype FruitKind = Cherry | Strawberry | Orange

  datatype FruitItem = FruitItem(x: real, y: real, kind: FruitKind, points: int, radius: real, active: bool)

  /** The fruit of a level: cherry up to level 2, strawberry up to 4, orange after. */
  function FruitKindFor(level: int): (k: FruitKind)
    ensures level <= 2 <==> k == Cherry
    ensures 2 < level <= 4 <==> k == Strawberry
    ensures level > 4 <==> k == Orange
  {
    if level <= 2 then Cherry else if level <= 4 then Strawberry else Orange
  }

  /** getFruitPoints: the worth of each fruit before the level bonus. */
  function FruitBasePoints(k: FruitKind): int
  {
    match k
    case Cherry => 100
    case Strawberry => 300
    case Orange => 500
  }

  /** The worth of the level's fruit: 20% more per level, rounded down. */
  function FruitPoints(level: int): int
  {
    var base := FruitBasePoints(FruitKindFor(level));
    (base as real * (1.0 + (level - 1) as real * 0.2)).Floor
  }

  /** How long the level's fruit stays out: one second less per level, at least five. */
  function FruitTime(level: int): real
  {
    MaxReal(5000.0, 10000.0 - (level - 1) as real * 1000.0)
  }

  lemma FruitBounds(level: int)
    requires level >= 1
    ensures FruitPoints(level) >= FruitBasePoints(FruitKindFor(level))
    ensures 5000.0 <= FruitTime(level) <= 10000.0
    ensures level >= 6 ==> FruitTime(level) == 5000.0
  {
    var base := FruitBasePoints(FruitKindFor(level));
    MulMono(1.0, 1.0 + (level - 1) as real * 0.2, base as real, base as real, base as real * (1.0 + (level - 1) as real * 0.2));
    FloorOfInt(base);
  }

  /** The first six fruit values. */
  lemma FruitTable()
    ensures FruitPoints(1) == 100 && FruitPoints(2) == 120
    ensures FruitPoints(3) == 420 && FruitPoints(4) == 480
    ensures FruitPoints(5) == 900 && FruitPoints(6) == 1000
  {
    FloorOfInt(100);
    FloorOfInt(120);
    FloorOfInt(420);
    FloorOfInt(480);
    FloorOfInt(900);
    FloorOfInt(1000);
  }

  /** The fruit is due when a third or two thirds of the level's dots, rounded down, are eaten. */
  predicate FruitDue(pelletsEaten: int, pelletsTotal: int)
  {
    pelletsEaten == (pelletsTotal as real / 3.0).Floor || pelletsEaten == (pelletsTotal as real * 2.0 / 3.0).Floor
  }

  /** With 240 dots the fruit comes at the 80th and the 160th. */
  lemma FruitDueAt()
    ensures FruitDue(80, 240) && FruitDue(160, 240) && !FruitDue(81, 240)
  {
    FloorOfInt(80);
    FloorOfInt(160);
  }

  /** The fruit fields of the game: the fruit on the board, whether it is active, its time left and whether one was eaten. */
  datatype FruitState = FruitState(fruit: Option<FruitItem>, active: bool, timer: real, eaten: bool)

  /** The fields right after spawnFruit on `level`: the level's fruit at (13.5, 17), active, with its full time. */
  function Spawned(level: int, eaten: bool): FruitState
  {
    FruitState(Some(FruitItem(13.5, 17.0, FruitKindFor(level), FruitPoints(level), 0.6, true)), true, FruitTime(level), eaten)
  }

  /** updateFruit's test: a player at (px, py) of radius pr takes the fruit f when the centres are closer than the radii together. */
  predicate Caught(px: real, py: real, pr: real, f: FruitItem)
  {
    Square(px - f.x) + Square(py - f.y) < Square(pr + f.radius) && pr + f.radius > 0.0
  }

  /**
   * updateFruit on the fruit fields, for a player at (px, py) of radius pr:
   * without an active fruit nothing changes; a fruit the player takes is
   * eaten and goes, its time kept; otherwise its time runs down by dt and it
   * goes at zero.
   */
  function FruitTick(s: FruitState, px: real, py: real, pr: real, dt: real): FruitState
  {
    if !s.active || s.fruit.None? then s
    else if Caught(px, py, pr, s.fruit.value) then FruitState(None, false, s.timer, true)
    else if s.timer - dt <= 0.0 then FruitState(None, false, s.timer - dt, s.eaten)
    else FruitState(s.fruit, true, s.timer - dt, s.eaten)
  }

  /** The speed a live player's update moves at over dt: the base speed when the power mode runs out in it, else the speed it had. */
  function MoveSpeed(power: Charge, speed: real, dt: real): real
  {
    if power.on && !PowerTick(power, dt).on then PlayerBaseSpeed else speed
  }

  /** The points the ghosts eaten from the a-th to the b-th of one power window bring. */
  function ChainPoints(a: nat, b: nat): nat
    requires a <= b
    decreases b - a
  {
    if a == b then 0 else GhostPoints(a) + ChainPoints(a + 1, b)
  }

  lemma {:induction false} ChainPointsAppend(a: nat, b: nat)
    requires a <= b
    ensures ChainPoints(a, b + 1) == ChainPoints(a, b) + GhostPoints(b)
    decreases b - a
  {
    if a < b {
      ChainPointsAppend(a + 1, b);
    }
  }

  /** n ghosts eaten in one power window bring 200 * (2^n - 1) points; four bring 3000. */
  lemma {:induction false} ChainTotal(n: nat)
    ensures ChainPoints(0, n) == 200 * (Pow2(n) - 1)
  {
    if n > 0 {
      ChainTotal(n - 1);
      ChainPointsAppend(0, n - 1);
    }
  }

  /** gameLoop's clamp of the frame time. */
  function ClampDelta(delta: real): (r: real)
    ensures r <= 60.0
    ensures delta <= 60.0 ==> r == delta
  {
    if delta > 60.0 then 60.0 else delta
  }

  /** What setDirection does to (direction, nextDirection) for a player at (x, y). */
  ghost function Steer(g: Grid, x: real, y: real, heading: (Direction, Option<Direction>), d: Direction): (Direction, Option<Direction>)
  {
    if Movable(g, x, y, d) then (d, None) else (heading.0, Some(d))
  }

  /** The arrow keys held, tried in the order up, down, left, right. */
  ghost function SteerAll(g: Grid, x: real, y: real, heading: (Direction, Option<Direction>), keys: set<Direction>): (Direction, Option<Direction>)
  {
    var h1 := if Up in keys then Steer(g, x, y, heading, Up) else heading;
    var h2 := if Down in keys then Steer(g, x, y, h1, Down) else h1;
    var h3 := if Left in keys then Steer(g, x, y, h2, Left) else h2;
    if Right in keys then Steer(g, x, y, h3, Right) else h3
  }

  /** No key held leaves the heading; a held right arrow that can be taken always wins. */
  lemma SteerAllRight(g: Grid, x: real, y: real, heading: (Direction, Option<Direction>), keys: set<Direction>)
    ensures keys == {} ==> SteerAll(g, x, y, heading, keys) == heading
    ensures Right in keys && Movable(g, x, y, Right) ==> SteerAll(g, x, y, heading, keys) == (Right, None)
    ensures keys == {Up} ==> SteerAll(g, x, y, heading, keys) == Steer(g, x, y, heading, Up)
  {
  }

  class Game {
    const maze: GameMap
    const animationTimer: AnimationTimer
    var player: Player
    var ghosts: seq<Ghosts.Ghost>

    var state: GameState
    var score: int
    var highScore: int
    var level: int
    var lives: int
    var levelStartTimer: real
    var gameOverTimer: real
    var levelCompleteTimer: real
    var eatenGhostsCount: nat
    var fruit: Option<FruitItem>
    var fruitTimer: real
    var fruitActive: bool
    var fruitEaten: bool
    var lastTimestamp: real

    /** The objects of the game and how they are wired together, with the fruit in play. */
    ghost predicate Valid()
      reads this`player, this`ghosts, this`level, maze, ghosts, animationTimer
      reads this`fruit, this`fruitActive, this`fruitEaten
    {
      Wired() && FruitInPlay()
    }

    /** The objects of the game and how they are wired together, whatever the fruit. */
    ghost predicate Wired()
      reads this`player, this`ghosts, this`level, maze, ghosts, animationTimer
    {
      maze.Valid() && animationTimer.Valid() && player.maze == maze && level >= 1 && Crew()
    }

    /**
     * The fruit on the board is the level's own, not yet eaten, and
     * fruitActive says whether there is one.
     */
    ghost predicate FruitInPlay()
      reads this`level, this`fruit, this`fruitActive, this`fruitEaten
    {
      (fruitActive <==> fruit.Some?) &&
      (fruit.Some? ==> !fruitEaten && fruit.value == FruitItem(13.5, 17.0, FruitKindFor(level), FruitPoints(level), 0.6, true))
    }

    /** The fruit fields as one value. */
    function Fruits(): FruitState
      reads this`fruit, this`fruitActive, this`fruitTimer, this`fruitEaten
    {
      FruitState(fruit, fruitActive, fruitTimer, fruitEaten)
    }

    /**
     * Where a live player's update leaves them over dt: one Moved step from
     * where they stood on the map as it was, in the direction they now face,
     * at the speed the power timer leaves.
     */
    twostate predicate PlayerStepped(dt: real)
      reads this`player, player`x, player`y, player`direction
    {
      Point(player.x, player.y) ==
        Moved(old(maze.layout), old(player.x), old(player.y), player.direction, MoveSpeed(old(player.PowerState()), old(player.speed), dt))
    }

    /** The four ghosts, one of each kind in roster order, on this game's map. */
    ghost predicate Crew()
      reads this`ghosts, ghosts
    {
      |ghosts| == 4 &&
      (forall i, j :: 0 <= i < j < |ghosts| ==> ghosts[i] != ghosts[j]) &&
      (forall i :: 0 <= i < |ghosts| ==> ghosts[i].maze == maze && ghosts[i].kind == Roster[i] && ghosts[i].Valid())
    }

    /** startGame: only from the start screen, with half a second before play. */
    method StartGame()
      modifies this`state, this`levelStartTimer
      ensures old(state) == Start ==> state == Playing && levelStartTimer == 500.0
      ensures old(state) != Start ==> unchanged(this)
    {
      if state != Start {
        return;
      }
      state := Playing;
      levelStartTimer := 500.0;
    }

    /** togglePause: playing and paused swap; any other state stays. */
    method TogglePause()
      modifies this`state
      ensures old(state) == Playing ==> state == Paused
      ensures old(state) == Paused ==> state == Playing
      ensures old(state) != Playing && old(state) != Paused ==> state == old(state)
    {
      if state == Playing {
        state := Paused;
      } else if state == Paused {
        state := Playing;
      }
    }

    /** resumeGame: only a paused game resumes. */
    method ResumeGame()
      modifies this`state
      ensures old(state) == Paused ==> state == Playing
      ensures old(state) != Paused ==> state == old(state)
    {
      if state != Paused {
        return;
      }
      state := Playing;
    }

    /** updateScore: the new score, and the high score is the larger of the old one and it. */
    method UpdateScore(newScore: int)
      modifies this`score, this`highScore
      ensures score == newScore
      ensures highScore == if newScore > old(highScore) then newScore else old(highScore)
      ensures highScore >= score && highScore >= old(highScore)
    {
      score := newScore;
      if score > highScore {
        highScore := score;
      }
    }

    /** levelComplete: the bonus of 1000 points per level and two seconds of celebration. */
    method CompleteLevel()
      modifies this`state, this`levelCompleteTimer, this`score, this`highScore
      ensures state == LevelComplete && levelCompleteTimer == 2000.0
      ensures score == old(score) + 1000 * level && highScore >= score && highScore >= old(highScore)
    {
      state := LevelComplete;
      levelCompleteTimer := 2000.0;
      var levelBonus := 1000 * level;
      UpdateScore(score + levelBonus);
    }

    /** gameOver: two seconds before a restart may be asked for. */
    method EndGame()
      modifies this`state, this`gameOverTimer
      ensures state == GameOver && gameOverTimer == 2000.0
    {
      state := GameOver;
      gameOverTimer := 2000.0;
    }

    /** updateGameOver: the timer runs down while positive. */
    method UpdateGameOver(dt: real)
      modifies this`gameOverTimer
      ensures gameOverTimer == if old(gameOverTimer) > 0.0 then old(gameOverTimer) - dt else old(gameOverTimer)
    {
      if gameOverTimer > 0.0 {
        gameOverTimer := gameOverTimer - dt;
      }
    }

    /** updateLevelComplete: the timer runs down while positive. */
    method UpdateLevelComplete(dt: real)
      modifies this`levelCompleteTimer
      ensures levelCompleteTimer == if old(levelCompleteTimer) > 0.0 then old(levelCompleteTimer) - dt else old(levelCompleteTimer)
    {
      if levelCompleteTimer > 0.0 {
        levelCompleteTimer := levelCompleteTimer - dt;
      }
    }

    /** checkFruitSpawn: a fruit appears at a third and at two thirds of the dots, unless one is out or was eaten. */
    method CheckFruitSpawn()
      modifies this`fruit, this`fruitActive, this`fruitTimer
      ensures !old(fruitEaten) && !old(fruitActive) && FruitDue(maze.pelletsEaten, maze.pelletsTotal) ==>
        fruitActive && fruitTimer == FruitTime(level) &&
        fruit == Some(FruitItem(13.5, 17.0, FruitKindFor(level), FruitPoints(level), 0.6, true))
      ensures !(!old(fruitEaten) && !old(fruitActive) && FruitDue(maze.pelletsEaten, maze.pelletsTotal)) ==> unchanged(this)
    {
      var pelletsEaten := maze.pelletsEaten;
      var totalPellets := maze.pelletsTotal;
      if !fruitEaten && !fruitActive &&
         (pelletsEaten == (totalPellets as real / 3.0).Floor || pelletsEaten == (totalPellets as real * 2.0 / 3.0).Floor) {
        SpawnFruit();
      }
    }

    /** spawnFruit: the level's fruit at (13.5, 17) with its points and its time. */
    method SpawnFruit()
      modifies this`fruit, this`fruitActive, this`fruitTimer
      ensures fruitActive && fruitTimer == FruitTime(level)
      ensures fruit == Some(FruitItem(13.5, 17.0, FruitKindFor(level), FruitPoints(level), 0.6, true))
    {
      var fruitType := if level <= 2 then Cherry else if level <= 4 then Strawberry else Orange;
      var basePoints := FruitBasePoints(fruitType);
      var levelBonus := (basePoints as real * (1.0 + (level - 1) as real * 0.2)).Floor;
      fruit := Some(FruitItem(13.5, 17.0, fruitType, levelBonus, 0.6, true));
      fruitActive := true;
      fruitTimer := MaxReal(5000.0, 10000.0 - (level - 1) as real * 1000.0);
    }

    /**
     * updateFruit: the player takes an active fruit when the centres are
     * closer than the two radii, scoring it; otherwise its time runs down and
     * it goes away at zero.
     */
    method UpdateFruit(dt: real, sqrt: real -> real)
      requires IsSqrt(sqrt)
      modifies this`fruit, this`fruitActive, this`fruitEaten, this`fruitTimer, this`score, this`highScore
      ensures !old(fruitActive) || old(fruit).None? ==> unchanged(this)
      ensures highScore >= old(highScore)
      ensures Fruits() == FruitTick(old(Fruits()), player.x, player.y, player.radius, dt)
      ensures score == old(score) +
        (if old(fruitActive) && old(fruit).Some? && Caught(player.x, player.y, player.radius, old(fruit).value)
         then old(fruit).value.points else 0)
      ensures old(FruitInPlay()) ==>
        FruitInPlay() && score == old(score) + (if fruitEaten && !old(fruitEaten) then FruitPoints(level) else 0)
    {
      if !fruitActive || fruit.None? {
        return;
      }
      var f := fruit.value;
      var d2 := Square(player.x - f.x) + Square(player.y - f.y);
      SumOfSquaresNonNegative(player.x - f.x, player.y - f.y);
      SqrtLess(sqrt, d2, player.radius + f.radius);
      var distance := sqrt(d2);
      if distance < player.radius + f.radius {
        fruitEaten := true;
        fruitActive := false;
        UpdateScore(score + f.points);
        fruit := None;
        return;
      }
      fruitTimer := fruitTimer - dt;
      if fruitTimer <= 0.0 {
        fruitActive := false;
        fruit := None;
      }
    }

    /** What the death of the player leads to: game over without lives left. */
    method HandlePlayerDeath()
      modifies this`lives, this`state, this`gameOverTimer
      ensures lives == player.lives
      ensures player.lives <= 0 ==> state == GameOver && gameOverTimer == 2000.0
      ensures player.lives > 0 ==> state == old(state) && gameOverTimer == old(gameOverTimer)
    {
      lives := player.lives;
      if player.lives <= 0 {
        EndGame();
        return;
      }
    }

    /**
     * The game as the page opens it: level 1, three lives, no score, the
     * saved high score, and everything initialize sets up.
     */
    constructor(savedHighScore: int)
      ensures Valid() && Staged() && Opening(savedHighScore)
    {
      var m := NewMap();
      maze := m;
      level := 1;
      var t := NewTimer();
      animationTimer := t;
      player := new Player(PlayerStart.x, PlayerStart.y + 0.1, m);
      ghosts := [];
      score, highScore, lives := 0, savedHighScore, 3;
      levelStartTimer, gameOverTimer, levelCompleteTimer := 0.0, 0.0, 0.0;
      lastTimestamp := 0.0;
      new;
      assert Opening(savedHighScore);
      Initialize();
    }

    /** The counters of a new game: level 1, three lives, no score, the saved high score, and no timers running. */
    ghost predicate Opening(savedHighScore: int)
      reads this`level, this`score, this`highScore, this`lives, this`levelStartTimer, this`gameOverTimer
      reads this`levelCompleteTimer, this`lastTimestamp
    {
      level == 1 && score == 0 && highScore == savedHighScore && lives == 3 &&
      levelStartTimer == 0.0 && gameOverTimer == 0.0 && levelCompleteTimer == 0.0 && lastTimestamp == 0.0
    }

    /** The 60-frames-per-second limiter of the game loop. */
    static method NewTimer() returns (t: AnimationTimer)
      ensures fresh(t) && t.Valid() && t.fps == 60.0 && t.lastFrameTime == 0.0
    {
      t := new AnimationTimer(60.0);
    }

    /** The map the constructor creates; initialize reloads it at once. */
    static method NewMap() returns (m: GameMap)
      ensures fresh(m) && m.Valid()
    {
      m := new GameMap();
    }

    /**
     * initialize: the level's map, a new player just below its start
     * point at the level's speed, the four ghosts at the level's speed and
     * frightened time, no fruit, and the start screen.
     */
    method Initialize()
      requires animationTimer.Valid() && level >= 1
      modifies maze, this`player, this`ghosts, this`fruit, this`fruitTimer, this`fruitActive, this`fruitEaten
      modifies this`eatenGhostsCount, this`state
      ensures Valid() && maze.layout == LevelLayout(level) && maze.pelletsEaten == 0 && maze.powerPelletsEaten == 0
      ensures Staged()
      ensures unchanged(this`level, this`score, this`highScore, this`lives)
      ensures unchanged(this`levelStartTimer, this`gameOverTimer, this`levelCompleteTimer, this`lastTimestamp)
    {
      LoadMap();
      SetUpActors();
    }

    /**
     * What initialize leaves besides the map: the start screen, no chain,
     * a new player just below its start point at the level's speed, the
     * four ghosts at the level's speed and frightened time, and no fruit.
     */
    ghost predicate Staged()
      reads this`level, this`state, this`eatenGhostsCount, this`player, this`ghosts
      reads this`fruit, this`fruitTimer, this`fruitActive, this`fruitEaten, player, ghosts
    {
      level >= 1 && state == Start && eatenGhostsCount == 0 &&
      Fielded(player, PlayerStart.x, PlayerStart.y + 0.1, level) && player.score == 0 && player.lives == 3 &&
      |ghosts| == 4 && (forall i :: 0 <= i < 4 ==> Scaled(ghosts[i], level)) &&
      fruit.None? && fruitTimer == 0.0 && !fruitActive && !fruitEaten
    }

    /** initialize after the map is loaded. */
    method SetUpActors()
      requires level >= 1
      modifies this`player, this`ghosts, this`fruit, this`fruitTimer, this`fruitActive, this`fruitEaten
      modifies this`eatenGhostsCount, this`state
      ensures player.maze == maze && Crew() && Staged()
      ensures fresh(player) && forall i :: 0 <= i < 4 ==> fresh(ghosts[i])
    {
      fruit, fruitTimer, fruitActive, fruitEaten := None, 0.0, false, false;
      eatenGhostsCount := 0;
      state := Start;
      NewPlayer();
      NewGhosts();
    }

    /** The map part of initialize: the base layout restored, then the level's walls. */
    method LoadMap()
      modifies maze
      ensures maze.Valid() && maze.layout == LevelLayout(level) && maze.pelletsEaten == 0 && maze.powerPelletsEaten == 0
    {
      maze.Reset();
      maze.LoadLevel(level);
    }

    /** A live player at (x, y) facing right, at the level's speed: 5% more per level, at most double, and a fifth on top. */
    ghost predicate Fielded(p: Player, x: real, y: real, level: int)
      requires level >= 1
      reads p
    {
      p.maze == maze && p.x == x && p.y == y && p.alive && p.direction == Right &&
      p.speed == PlayerLevelSpeed(level)
    }

    /** The player part of initialize. */
    method NewPlayer()
      requires level >= 1
      modifies this`player
      ensures fresh(player) && Fielded(player, PlayerStart.x, PlayerStart.y + 0.1, level)
      ensures player.score == 0 && player.lives == 3 && !player.powerMode
    {
      player := new Player(PlayerStart.x, PlayerStart.y + 0.1, maze);
      player.direction := Right;
      player.alive := true;
      var speedMultiplier := MinReal(2.0, 1.0 + (level - 1) as real * 0.05);
      player.speed := player.baseSpeed * speedMultiplier * 1.2;
    }

    /** The ghost part of initialize: the four ghosts, created and scaled. */
    method NewGhosts()
      requires level >= 1
      modifies this`ghosts
      ensures Crew() && forall i :: 0 <= i < 4 ==> fresh(ghosts[i]) && Scaled(ghosts[i], level)
    {
      CreateGhosts();
      ScaleNewGhosts();
    }

    /** A ghost at the level's speed and frightened time. */
    ghost predicate Scaled(g: Ghosts.Ghost, level: int)
      requires level >= 1
      reads g
    {
      g.baseSpeed == GhostLevelSpeed(g.kind, level) && g.speed == g.baseSpeed &&
      (level > 1 ==> g.frightenedDuration == FrightenedDurationFor(level))
    }

    /** createGhosts: Blinky, Pinky, Inky and Clyde at their starting points. */
    method CreateGhosts()
      modifies this`ghosts
      ensures |ghosts| == 4 && forall i :: 0 <= i < 4 ==> fresh(ghosts[i])
      ensures forall i, j :: 0 <= i < j < 4 ==> ghosts[i] != ghosts[j]
      ensures forall i :: 0 <= i < 4 ==>
        ghosts[i].Valid() && ghosts[i].maze == maze && ghosts[i].kind == Roster[i] &&
        ghosts[i].x == GhostStarts[i].x && ghosts[i].y == GhostStarts[i].y &&
        !ghosts[i].frightened && !ghosts[i].eaten && !ghosts[i].waitingInHouse && ghosts[i].frightenedDuration == 7000.0
    {
      var blinky := new Ghosts.Ghost(GhostStarts[0].x, GhostStarts[0].y, maze, Ghosts.Blinky);
      var pinky := new Ghosts.Ghost(GhostStarts[1].x, GhostStarts[1].y, maze, Ghosts.Pinky);
      var inky := new Ghosts.Ghost(GhostStarts[2].x, GhostStarts[2].y, maze, Ghosts.Inky);
      var clyde := new Ghosts.Ghost(GhostStarts[3].x, GhostStarts[3].y, maze, Ghosts.Clyde);
      ghosts := [blinky, pinky, inky, clyde];
    }

    /** The level's speed (8% more per level, at most double) and frightened time for one calm ghost. */
    method ScaleGhost(g: Ghosts.Ghost)
      requires g.Valid() && !g.frightened && !g.eaten && level >= 1
      modifies g`baseSpeed, g`speed, g`frightenedDuration
      ensures g.Valid() && Scaled(g, level)
      ensures level <= 1 ==> g.frightenedDuration == old(g.frightenedDuration)
    {
      var ghostSpeedMultiplier := MinReal(2.0, 1.0 + (level - 1) as real * 0.08);
      if g.kind == Ghosts.Blinky {
        g.baseSpeed := 0.09 * ghostSpeedMultiplier;
      } else {
        g.baseSpeed := 0.08 * ghostSpeedMultiplier;
      }
      g.speed := g.baseSpeed;
      if level > 1 {
        var frightenedReduction := 1.0 - MinReal(0.75, (level - 1) as real * 0.15);
        g.frightenedDuration := MaxReal(2000.0, 7000.0 * frightenedReduction);
      }
    }

    /** The ghost loop of initialize: scale each new ghost, and lift one waiting in the house a little. */
    method ScaleNewGhosts()
      requires |ghosts| == 4 && level >= 1
      requires forall i, j :: 0 <= i < j < 4 ==> ghosts[i] != ghosts[j]
      requires forall i :: 0 <= i < 4 ==> ghosts[i].Valid() && !ghosts[i].frightened && !ghosts[i].eaten
      modifies ghosts
      ensures forall i :: 0 <= i < 4 ==> ghosts[i].Valid() && Scaled(ghosts[i], level)
      ensures forall i :: 0 <= i < 4 ==>
        ghosts[i].y == old(ghosts[i].y) + (if old(ghosts[i].waitingInHouse) then 0.1 else 0.0) && ghosts[i].x == old(ghosts[i].x)
    {
      var i := 0;
      while i < 4
        invariant 0 <= i <= 4
        invariant forall j :: 0 <= j < i ==> ghosts[j].Valid() && Scaled(ghosts[j], level)
        invariant forall j :: 0 <= j < i ==>
          ghosts[j].y == old(ghosts[j].y) + (if old(ghosts[j].waitingInHouse) then 0.1 else 0.0) && ghosts[j].x == old(ghosts[j].x)
        invariant forall j :: i <= j < 4 ==> unchanged(ghosts[j])
      {
        var g := ghosts[i];
        ScaleGhost(g);
        if g.waitingInHouse {
          g.y := g.y + 0.1;
        }
        i := i + 1;
      }
    }

    /**
     * activateGhostFrightenedMode: the chain counter starts again and every
     * ghost is frightened; above the first level each ghost's timer is its
     * duration reduced once more, at least two seconds.
     */
    method ActivateGhostFrightenedMode()
      requires Valid()
      modifies this`eatenGhostsCount, ghosts
      ensures Valid() && eatenGhostsCount == 0
      ensures forall i :: 0 <= i < 4 ==>
        Frightened(ghosts[i], level, old(ghosts[i].eaten), old(ghosts[i].mode), old(ghosts[i].direction), old(ghosts[i].frightenedTimer)) &&
        Kept(ghosts[i], old(ghosts[i].x), old(ghosts[i].y), old(ghosts[i].eaten))
    {
      eatenGhostsCount := 0;
      var i := 0;
      while i < 4
        invariant 0 <= i <= 4 && eatenGhostsCount == 0
        invariant forall j :: 0 <= j < 4 ==> ghosts[j].Valid()
        invariant forall j :: 0 <= j < i ==>
          Frightened(ghosts[j], level, old(ghosts[j].eaten), old(ghosts[j].mode), old(ghosts[j].direction), old(ghosts[j].frightenedTimer)) &&
          Kept(ghosts[j], old(ghosts[j].x), old(ghosts[j].y), old(ghosts[j].eaten))
        invariant forall j :: i <= j < 4 ==> unchanged(ghosts[j])
      {
        FrightenGhost(ghosts[i]);
        i := i + 1;
      }
    }

    /**
     * What activation leaves in one ghost that was eaten or not, in mode m,
     * facing d, with timer t: a ghost on the loose turns round and slows to
     * half its base speed; an eaten one keeps its mode and heading.
     */
    ghost predicate Frightened(g: Ghosts.Ghost, level: int, wasEaten: bool, m: Ghosts.Mode, d: Direction, t: real)
      reads g
    {
      (!wasEaten ==>
         g.frightened && g.mode == Ghosts.Frightened && g.previousMode == m && !g.blinking &&
         g.direction == Opposite(d) && g.speed == g.baseSpeed * 0.5) &&
      (wasEaten ==> !g.frightened && g.mode == m && g.direction == d) &&
      g.frightenedTimer == (if level > 1 then ActivationTimer(g.frightenedDuration, level)
                            else if wasEaten then t else g.frightenedDuration)
    }

    /** A ghost still at (x, y), still eaten or not as it was. */
    ghost predicate Kept(g: Ghosts.Ghost, x: real, y: real, eaten: bool)
      reads g
    {
      g.x == x && g.y == y && g.eaten == eaten
    }

    /** The body of the activation loop for one ghost. */
    method FrightenGhost(g: Ghosts.Ghost)
      requires g.Valid()
      modifies g`previousMode, g`mode, g`frightened, g`frightenedTimer, g`blinking, g`speed, g`direction
      ensures g.Valid() && Frightened(g, level, old(g.eaten), old(g.mode), old(g.direction), old(g.frightenedTimer))
      ensures Kept(g, old(g.x), old(g.y), old(g.eaten))
    {
      g.StartFrightened();
      if level > 1 {
        ReduceFrightenedTimer(g);
      }
    }

    /** The level reduction of activateGhostFrightenedMode, applied to one ghost's timer. */
    method ReduceFrightenedTimer(g: Ghosts.Ghost)
      modifies g`frightenedTimer
      ensures g.frightenedTimer == ActivationTimer(g.frightenedDuration, level)
    {
      var frightenedReduction := 1.0 - MinReal(0.75, (level - 1) as real * 0.15);
      g.frightenedTimer := MaxReal(2000.0, g.frightenedDuration * frightenedReduction);
    }

    /** The ghost loop of nextLevel and of the respawn: reset each ghost, and rescale it when asked. */
    method ResetGhosts(scale: bool)
      requires Wired()
      modifies ghosts
      ensures Wired()
      ensures forall i :: 0 <= i < 4 ==> ghosts[i].AtReset(old(ghosts[i].waitingInHouse), old(ghosts[i].waitTimer)) && (scale ==> Scaled(ghosts[i], level))
      ensures !scale ==> forall i :: 0 <= i < 4 ==>
        ghosts[i].baseSpeed == old(ghosts[i].baseSpeed) && ghosts[i].frightenedDuration == old(ghosts[i].frightenedDuration)
    {
      var i := 0;
      while i < 4
        invariant 0 <= i <= 4 && Wired()
        invariant forall j :: 0 <= j < i ==> ghosts[j].AtReset(old(ghosts[j].waitingInHouse), old(ghosts[j].waitTimer)) && (scale ==> Scaled(ghosts[j], level))
        invariant forall j :: i <= j < 4 ==>
          ghosts[j].waitingInHouse == old(ghosts[j].waitingInHouse) && ghosts[j].waitTimer == old(ghosts[j].waitTimer)
        invariant !scale ==> forall j :: 0 <= j < 4 ==>
          ghosts[j].baseSpeed == old(ghosts[j].baseSpeed) && ghosts[j].frightenedDuration == old(ghosts[j].frightenedDuration)
      {
        ResetGhost(ghosts[i], scale);
        i := i + 1;
      }
    }

    /** The body of that loop for one ghost. */
    method ResetGhost(g: Ghosts.Ghost, scale: bool)
      requires g.Valid() && level >= 1
      modifies g`x, g`y, g`direction, g`mode, g`modeTimer, g`frightened, g`eaten, g`recovering
      modifies g`path, g`speed, g`stuckCheckCounter, g`lastPosition, g`waitingInHouse, g`waitTimer
      modifies g`baseSpeed, g`frightenedDuration
      ensures g.AtReset(old(g.waitingInHouse), old(g.waitTimer)) && (scale ==> Scaled(g, level))
      ensures !scale ==> g.baseSpeed == old(g.baseSpeed) && g.frightenedDuration == old(g.frightenedDuration)
    {
      g.Reset();
      if scale {
        ScaleGhost(g);
      }
    }

    /**
     * The delayed part of handlePlayerDeath, run when its one-second timer
     * fires: the player and the ghosts back at their starts, the fruit
     * gone (but not marked eaten), and half a second before play resumes.
     * player.reset puts the speed back to the first level's value.
     */
    method Respawn()
      requires Valid()
      modifies player, ghosts, this`fruit, this`fruitTimer, this`fruitActive, this`levelStartTimer
      ensures Valid()
      ensures player.x == PlayerStart.x && player.y == PlayerStart.y && player.alive && player.direction == Right
      ensures player.speed == player.baseSpeed * 1.2 && !player.powerMode
      ensures player.lives == old(player.lives) && player.score == old(player.score)
      ensures forall i :: 0 <= i < 4 ==> ghosts[i].AtReset(old(ghosts[i].waitingInHouse), old(ghosts[i].waitTimer))
      ensures fruit.None? && fruitTimer == 0.0 && !fruitActive && fruitEaten == old(fruitEaten)
      ensures levelStartTimer == 500.0
    {
      player.Reset(PlayerStart.x, PlayerStart.y);
      // the source resets the ghosts before the fruit; the two touch disjoint fields
      fruit, fruitTimer, fruitActive := None, 0.0, false;
      levelStartTimer := 500.0;
      ResetGhosts(false);
    }

    /**
     * nextLevel: one level up with the score kept, the level's map, the
     * player and the ghosts back at their starts at the level's speeds, and
     * no fruit; the screen stays on level complete until ResumeAfterLevel.
     */
    method NextLevel()
      requires Valid()
      modifies this`level, this`score, this`highScore, maze, player, ghosts
      modifies this`fruit, this`fruitTimer, this`fruitActive, this`fruitEaten
      ensures Valid() && level == old(level) + 1
      ensures score == old(score) && highScore == if old(score) > old(highScore) then old(score) else old(highScore)
      ensures maze.layout == LevelLayout(level) && maze.pelletsEaten == 0 && maze.powerPelletsEaten == 0
      ensures Fielded(player, PlayerStart.x, PlayerStart.y, level) && !player.powerMode
      ensures player.lives == old(player.lives) && player.score == old(player.score)
      ensures forall i :: 0 <= i < 4 ==> ghosts[i].AtReset(old(ghosts[i].waitingInHouse), old(ghosts[i].waitTimer)) && Scaled(ghosts[i], level)
      ensures fruit.None? && fruitTimer == 0.0 && !fruitActive && !fruitEaten
    {
      level := level + 1;
      UpdateScore(score);
      ReloadMap();
      PlaceForLevel();
    }

    /** The map part of nextLevel. */
    method ReloadMap()
      modifies maze
      ensures maze.Valid() && maze.layout == LevelLayout(level) && maze.pelletsEaten == 0 && maze.powerPelletsEaten == 0
    {
      maze.LoadLevel(level);
    }

    /** The actors part of nextLevel. */
    method PlaceForLevel()
      requires Wired()
      modifies player, ghosts, this`fruit, this`fruitTimer, this`fruitActive, this`fruitEaten
      ensures Valid()
      ensures Fielded(player, PlayerStart.x, PlayerStart.y, level) && !player.powerMode
      ensures player.lives == old(player.lives) && player.score == old(player.score)
      ensures forall i :: 0 <= i < 4 ==> ghosts[i].AtReset(old(ghosts[i].waitingInHouse), old(ghosts[i].waitTimer)) && Scaled(ghosts[i], level)
      ensures fruit.None? && fruitTimer == 0.0 && !fruitActive && !fruitEaten
    {
      PlacePlayer();
      ResetGhosts(true);
      fruit, fruitTimer, fruitActive, fruitEaten := None, 0.0, false, false;
    }

    /** nextLevel's player: back at the start point, at the level's speed. */
    method PlacePlayer()
      requires level >= 1 && player.maze == maze
      modifies player
      ensures Fielded(player, PlayerStart.x, PlayerStart.y, level) && !player.powerMode
      ensures player.lives == old(player.lives) && player.score == old(player.score)
    {
      player.Reset(PlayerStart.x, PlayerStart.y);
      var playerSpeedMultiplier := MinReal(2.0, 1.0 + (level - 1) as real * 0.05);
      player.speed := player.baseSpeed * playerSpeedMultiplier * 1.2;
    }

    /** The delayed part of nextLevel, run when its two-second timer fires. */
    method ResumeAfterLevel()
      modifies this`state, this`levelStartTimer
      ensures state == Playing && levelStartTimer == 1500.0
    {
      state := Playing;
      levelStartTimer := 1500.0;
    }

    /** resetGame: level 1, three lives, no score (the high score stays), then initialize and the start screen. */
    method ResetGame()
      requires Valid()
      modifies maze, this`player, this`ghosts, this`fruit, this`fruitTimer, this`fruitActive, this`fruitEaten
      modifies this`eatenGhostsCount, this`state, this`score, this`highScore, this`level, this`lives
      ensures Valid() && Staged() && maze.layout == LevelLayout(1)
      ensures level == 1 && score == 0 && lives == 3
      ensures highScore == if 0 > old(highScore) then 0 else old(highScore)
    {
      score, level, lives := 0, 1, 3;
      UpdateScore(0);
      Initialize();
    }

    /** The held arrow keys of updateStart and of the "Ready!" wait, tried up, down, left, right. */
    method ApplyKeys(keys: set<Direction>)
      requires player.maze == maze
      modifies player`direction, player`nextDirection
      ensures (player.direction, player.nextDirection) ==
        SteerAll(maze.layout, player.x, player.y, (old(player.direction), old(player.nextDirection)), keys)
    {
      SteerKey(Up, Up in keys);
      SteerKey(Down, Down in keys);
      SteerKey(Left, Left in keys);
      SteerKey(Right, Right in keys);
    }

    /** One arrow of ApplyKeys: setDirection with its name when the key is held. */
    method SteerKey(d: Direction, held: bool)
      requires player.maze == maze
      modifies player`direction, player`nextDirection
      ensures (player.direction, player.nextDirection) ==
        if held then Steer(maze.layout, player.x, player.y, (old(player.direction), old(player.nextDirection)), d)
        else (old(player.direction), old(player.nextDirection))
    {
      if held {
        ParseName(d);
        player.SetDirection(Name(d));
      }
    }

    /**
     * What a key-steered frame does to the player: a dead one only turns as
     * the held keys say; a live one's power timer runs and it makes one
     * Moved step. Its lives, score and alive flag stay.
     */
    twostate predicate Steered(dt: real, keys: set<Direction>)
      reads this`player, player
    {
      player.alive == old(player.alive) && player.lives == old(player.lives) && player.score == old(player.score) &&
      (!old(player.alive) ==>
         player.x == old(player.x) && player.y == old(player.y) &&
         (player.direction, player.nextDirection) ==
           SteerAll(old(maze.layout), old(player.x), old(player.y), (old(player.direction), old(player.nextDirection)), keys)) &&
      (old(player.alive) ==> player.PowerState() == PowerTick(old(player.PowerState()), dt) && PlayerStepped(dt))
    }

    /** A key-steered player frame: what updateStart and the "Ready!" wait do to the player. */
    method SteerAndMove(dt: real, keys: set<Direction>)
      requires Valid()
      modifies player
      ensures Valid() && Steered(dt, keys)
    {
      ApplyKeys(keys);
      player.Update(dt);
    }

    /** updateStart: the start screen already lets the held keys steer and move the player. */
    method UpdateStart(dt: real, keys: set<Direction>)
      requires Valid()
      modifies player
      ensures Valid() && Steered(dt, keys)
    {
      SteerAndMove(dt, keys);
    }

    /** The "Ready!" wait of updatePlaying: the start timer runs down, the player moves, the ghosts and the map wait. */
    method ReadyPhase(dt: real, keys: set<Direction>)
      requires Valid()
      modifies this`levelStartTimer, player
      ensures Valid() && levelStartTimer == old(levelStartTimer) - dt && Steered(dt, keys)
    {
      levelStartTimer := levelStartTimer - dt;
      SteerAndMove(dt, keys);
    }

    /** A fruit that checkFruitSpawn puts out: the level's, at (13.5, 17), with its time. */
    ghost predicate FruitOut()
      reads this`level, this`fruit, this`fruitActive, this`fruitTimer
    {
      fruitActive && fruitTimer == FruitTime(level) &&
      fruit == Some(FruitItem(13.5, 17.0, FruitKindFor(level), FruitPoints(level), 0.6, true))
    }

    /**
     * What updatePlaying does with an eaten pellet: its points, the ghosts
     * frightened by a power pellet, the level complete once the map is
     * clear, and otherwise the fruit check.
     */
    method ScorePellet(h: PelletHit) returns (cleared: bool)
      requires Valid()
      modifies this`score, this`highScore, this`eatenGhostsCount, ghosts, this`state, this`levelCompleteTimer
      modifies this`fruit, this`fruitActive, this`fruitTimer
      ensures Valid()
      ensures cleared <==> maze.AreAllPelletsEaten()
      ensures score == old(score) + h.points + (if cleared then 1000 * level else 0)
      ensures highScore >= score && highScore >= old(highScore)
      ensures cleared ==> state == LevelComplete && levelCompleteTimer == 2000.0
      ensures !cleared ==> state == old(state) && levelCompleteTimer == old(levelCompleteTimer)
      ensures h.kind == Power ==> eatenGhostsCount == 0 && forall i :: 0 <= i < 4 ==>
        Frightened(ghosts[i], level, old(ghosts[i].eaten), old(ghosts[i].mode), old(ghosts[i].direction), old(ghosts[i].frightenedTimer))
      ensures h.kind != Power ==> eatenGhostsCount == old(eatenGhostsCount) && forall i :: 0 <= i < 4 ==> unchanged(ghosts[i])
      ensures !cleared && !old(fruitEaten) && !old(fruitActive) && FruitDue(maze.pelletsEaten, maze.pelletsTotal) ==> FruitOut()
      ensures !(!cleared && !old(fruitEaten) && !old(fruitActive) && FruitDue(maze.pelletsEaten, maze.pelletsTotal)) ==>
        unchanged(this`fruit, this`fruitActive, this`fruitTimer)
      ensures forall i :: 0 <= i < 4 ==> Kept(ghosts[i], old(ghosts[i].x), old(ghosts[i].y), old(ghosts[i].eaten))
    {
      CountPellet(h);
      cleared := ClearedOrFruit();
    }

    /** The first half of ScorePellet: the points, and a power pellet's fright. */
    method CountPellet(h: PelletHit)
      requires Valid()
      modifies this`score, this`highScore, this`eatenGhostsCount, ghosts
      ensures Valid()
      ensures score == old(score) + h.points && highScore >= score && highScore >= old(highScore)
      ensures h.kind == Power ==> eatenGhostsCount == 0 && forall i :: 0 <= i < 4 ==>
        Frightened(ghosts[i], level, old(ghosts[i].eaten), old(ghosts[i].mode), old(ghosts[i].direction), old(ghosts[i].frightenedTimer))
      ensures h.kind != Power ==> eatenGhostsCount == old(eatenGhostsCount) && forall i :: 0 <= i < 4 ==> unchanged(ghosts[i])
      ensures forall i :: 0 <= i < 4 ==> Kept(ghosts[i], old(ghosts[i].x), old(ghosts[i].y), old(ghosts[i].eaten))
    {
      UpdateScore(score + h.points);
      if h.kind == Power {
        ActivateGhostFrightenedMode();
      }
    }

    /** The second half: the level complete once no pellet is left, and otherwise the fruit check. */
    method ClearedOrFruit() returns (cleared: bool)
      modifies this`score, this`highScore, this`state, this`levelCompleteTimer, this`fruit, this`fruitActive, this`fruitTimer
      ensures cleared <==> maze.AreAllPelletsEaten()
      ensures score == old(score) + (if cleared then 1000 * level else 0)
      ensures highScore >= old(highScore) && (old(highScore) >= old(score) ==> highScore >= score)
      ensures cleared ==> state == LevelComplete && levelCompleteTimer == 2000.0
      ensures !cleared ==> unchanged(this`state, this`levelCompleteTimer, this`score, this`highScore)
      ensures !cleared && !fruitEaten && !old(fruitActive) && FruitDue(maze.pelletsEaten, maze.pelletsTotal) ==> FruitOut()
      ensures !(!cleared && !fruitEaten && !old(fruitActive) && FruitDue(maze.pelletsEaten, maze.pelletsTotal)) ==>
        unchanged(this`fruit, this`fruitActive, this`fruitTimer)
    {
      cleared := maze.AreAllPelletsEaten();
      if cleared {
        CompleteLevel();
        return;
      }
      CheckFruitSpawn();
    }

    /**
     * The player part of updatePlaying: a live player moves and eats the
     * pellet under them, which ScorePellet scores; `cleared` says that it
     * was the last one.
     */
    method PlayerPhase(dt: real) returns (hit: Option<PelletHit>, cleared: bool)
      requires Valid()
      modifies player, maze, this`score, this`highScore, this`eatenGhostsCount, ghosts, this`state, this`levelCompleteTimer
      modifies this`fruit, this`fruitActive, this`fruitTimer
      ensures Valid()
      ensures player.alive == old(player.alive) && player.lives == old(player.lives)
      ensures !old(player.alive) ==>
        hit.None? && !cleared && unchanged(player) && unchanged(maze) && unchanged(ghosts) &&
        unchanged(this`score, this`highScore, this`eatenGhostsCount, this`state, this`fruit, this`fruitActive, this`fruitTimer)
      ensures old(player.alive) ==>
        hit == PelletAt(old(maze.layout), player.x, player.y) && maze.layout == EatAt(old(maze.layout), player.x, player.y)
      ensures old(player.alive) ==>
        PlayerStepped(dt) &&
        player.PowerState() == (if hit == Some(PelletHit(Power, 50)) then Charge(true, PowerModeDuration, false) else PowerTick(old(player.PowerState()), dt))
      ensures cleared <==> hit.Some? && maze.AreAllPelletsEaten()
      ensures Fruits() ==
        if hit.Some? && !cleared && !old(fruitEaten) && !old(fruitActive) && FruitDue(maze.pelletsEaten, maze.pelletsTotal)
        then Spawned(level, old(fruitEaten)) else old(Fruits())
      ensures score == old(score) + (if hit.Some? then hit.value.points else 0) + (if cleared then 1000 * level else 0)
      ensures player.score == old(player.score) + (if hit.Some? then hit.value.points else 0)
      ensures highScore >= old(highScore) && (hit.Some? ==> highScore >= score)
      ensures cleared ==> state == LevelComplete
      ensures !cleared ==> state == old(state)
      ensures hit != Some(PelletHit(Power, 50)) ==> eatenGhostsCount == old(eatenGhostsCount) && unchanged(ghosts)
      ensures hit == Some(PelletHit(Power, 50)) ==> eatenGhostsCount == 0 && forall i :: 0 <= i < 4 ==>
        Frightened(ghosts[i], level, old(ghosts[i].eaten), old(ghosts[i].mode), old(ghosts[i].direction), old(ghosts[i].frightenedTimer))
      ensures forall i :: 0 <= i < 4 ==> Kept(ghosts[i], old(ghosts[i].x), old(ghosts[i].y), old(ghosts[i].eaten))
    {
      hit, cleared := None, false;
      if !player.alive {
        return;
      }
      hit := MoveAndEat(dt);
      if hit.Some? {
        cleared := ScorePellet(hit.value);
      }
    }

    /** A live player's update and checkPellets. */
    method MoveAndEat(dt: real) returns (hit: Option<PelletHit>)
      requires Valid()
      modifies player, maze
      ensures Valid()
      ensures player.alive == old(player.alive) && player.lives == old(player.lives)
      ensures old(player.alive) ==>
        PlayerStepped(dt) &&
        player.PowerState() == (if hit == Some(PelletHit(Power, 50)) then Charge(true, PowerModeDuration, false) else PowerTick(old(player.PowerState()), dt))
      ensures hit == PelletAt(old(maze.layout), player.x, player.y) && maze.layout == EatAt(old(maze.layout), player.x, player.y)
      ensures player.score == old(player.score) + (if hit.Some? then hit.value.points else 0)
    {
      player.Update(dt);
      hit := player.CheckPellets();
    }

    /** checkGhostCollision for this game's player, decided on squares. */
    ghost predicate Touching(g: Ghosts.Ghost)
      reads this`player, player`x, player`y, g`x, g`y
    {
      Square(player.x - g.x) + Square(player.y - g.y) < 0.49
    }

    /**
     * One ghost of updatePlaying's ghost loop: the ghost moves; a live
     * player touching it then eats it (powered up, ghost not recovering)
     * for the chain's next points, or dies when the ghost is neither
     * frightened nor eaten.
     */
    method GhostTurn(g: Ghosts.Ghost, dt: real, sqrt: real -> real, dice: Ghosts.GhostDice) returns (points: int)
      requires Valid() && g in ghosts && IsSqrt(sqrt) && |dice.rolls| >= 20
      modifies g, player`score, player`alive, player`lives, this`eatenGhostsCount, this`score, this`highScore
      ensures Valid()
      ensures points > 0 <==> old(player.alive) && Touching(g) && player.powerMode && !g.recovering
      ensures points > 0 ==> points == GhostPoints(old(eatenGhostsCount)) && g.eaten
      ensures points <= 0 ==> points == 0
      ensures eatenGhostsCount == old(eatenGhostsCount) + (if points > 0 then 1 else 0)
      ensures score == old(score) + points && highScore >= old(highScore) && (points > 0 ==> highScore >= score)
      ensures player.lives == old(player.lives) - (if old(player.alive) && !player.alive then 1 else 0)
      ensures player.alive <==>
        old(player.alive) && !(Touching(g) && !(player.powerMode && !g.recovering) && !g.frightened && !g.eaten)
      ensures g.ModeTicked(old(g.Timers()), g.Clock(), dt)
    {
      var blinky := Point(ghosts[0].x, ghosts[0].y);
      ghost var at, facing, route, timer := g.Update(dt, Ghosts.PlayerView(player.x, player.y, player.direction), blinky, sqrt, dice);
      points := Meet(g, sqrt);
    }

    /** The collision half of GhostTurn, after the ghost has moved. */
    method Meet(g: Ghosts.Ghost, sqrt: real -> real) returns (points: int)
      requires Valid() && g in ghosts && IsSqrt(sqrt)
      modifies g`eaten, g`frightened, g`speed, player`score, player`alive, player`lives
      modifies this`eatenGhostsCount, this`score, this`highScore
      ensures Valid()
      ensures points > 0 <==> old(player.alive) && Touching(g) && player.powerMode && !g.recovering
      ensures points > 0 ==> points == GhostPoints(old(eatenGhostsCount)) && g.eaten
      ensures points <= 0 ==> points == 0
      ensures eatenGhostsCount == old(eatenGhostsCount) + (if points > 0 then 1 else 0)
      ensures score == old(score) + points && highScore >= old(highScore) && (points > 0 ==> highScore >= score)
      ensures player.lives == old(player.lives) - (if old(player.alive) && !player.alive then 1 else 0)
      ensures player.alive <==>
        old(player.alive) && !(Touching(g) && !(player.powerMode && !g.recovering) && !g.frightened && !g.eaten)
    {
      points := 0;
      if player.alive && player.CheckGhostCollision(sqrt, g) {
        points := player.CollideWithGhost(g, eatenGhostsCount);
        if points > 0 {
          eatenGhostsCount := eatenGhostsCount + 1;
          UpdateScore(score + points);
        }
      }
    }

    /**
     * The ghost loop of updatePlaying, with one set of random draws per
     * ghost: the eaten ghosts extend the chain and its points, and the
     * player loses at most one life.
     */
    method GhostPhase(dt: real, sqrt: real -> real, dice: seq<Ghosts.GhostDice>)
      requires Valid() && IsSqrt(sqrt) && |dice| == 4 && forall i :: 0 <= i < 4 ==> |dice[i].rolls| >= 20
      modifies ghosts, player`score, player`alive, player`lives, this`eatenGhostsCount, this`score, this`highScore
      ensures Valid()
      ensures old(eatenGhostsCount) <= eatenGhostsCount <= old(eatenGhostsCount) + 4
      ensures score == old(score) + ChainPoints(old(eatenGhostsCount), eatenGhostsCount)
      ensures highScore >= old(highScore) && (eatenGhostsCount > old(eatenGhostsCount) ==> highScore >= score)
      ensures !old(player.alive) || !player.powerMode ==> eatenGhostsCount == old(eatenGhostsCount)
      ensures player.lives == old(player.lives) - (if old(player.alive) && !player.alive then 1 else 0)
      ensures !old(player.alive) ==> !player.alive
    {
      var i := 0;
      while i < 4
        invariant 0 <= i <= 4 && Valid()
        invariant old(eatenGhostsCount) <= eatenGhostsCount <= old(eatenGhostsCount) + i
        invariant score == old(score) + ChainPoints(old(eatenGhostsCount), eatenGhostsCount)
        invariant highScore >= old(highScore) && (eatenGhostsCount > old(eatenGhostsCount) ==> highScore >= score)
        invariant !old(player.alive) || !player.powerMode ==> eatenGhostsCount == old(eatenGhostsCount)
        invariant player.lives == old(player.lives) - (if old(player.alive) && !player.alive then 1 else 0)
        invariant !old(player.alive) ==> !player.alive
      {
        ghost var before := eatenGhostsCount;
        var points := GhostTurn(ghosts[i], dt, sqrt, dice[i]);
        if points > 0 {
          ChainPointsAppend(old(eatenGhostsCount), before);
        }
        i := i + 1;
      }
    }

    /**
     * What updatePlaying does during the "Ready!" wait: the start timer runs
     * down and the player is steered and moves; the map, the ghosts, the
     * score, the state, the lives and the fruit wait.
     */
    twostate predicate ReadyFramed(dt: real, keys: set<Direction>)
      reads this`levelStartTimer, this`score, this`highScore, this`state, this`lives, this`fruit, this`fruitTimer
      reads this`player, this`ghosts, player, maze, ghosts
    {
      levelStartTimer == old(levelStartTimer) - dt && unchanged(maze) && ghosts == old(ghosts) && unchanged(ghosts) &&
      unchanged(this`score, this`highScore, this`state, this`lives, this`fruit, this`fruitTimer) &&
      Steered(dt, keys)
    }

    /**
     * What a frame of updatePlaying after the "Ready!" timer does. A live
     * player makes one Moved step, eats the pellet there (`hit`) and, on a
     * power pellet, powers up. The last pellet ends the frame: level
     * complete with the level bonus, the fruit and the ghosts' places as they
     * were, the ghosts frightened by a power pellet. Otherwise the state is
     * game over exactly when the player died without lives left, the score
     * grows by the pellet, the chain of eaten ghosts (started again by a power
     * pellet) and the fruit, and the fruit, spawned by the pellet when due,
     * runs one FruitTick unless the player died.
     */
    twostate predicate PlayFramed(dt: real)
      reads this`player, this`ghosts, this`state, this`score, this`level, this`eatenGhostsCount, this`lives
      reads this`fruit, this`fruitActive, this`fruitTimer, this`fruitEaten, player, maze, ghosts
    {
      var hit := if old(player.alive) then PelletAt(old(maze.layout), player.x, player.y) else None;
      var power := hit == Some(PelletHit(Power, 50));
      var pellet := if hit.Some? then hit.value.points else 0;
      var cleared := hit.Some? && maze.AreAllPelletsEaten();
      var spawned := hit.Some? && !cleared && !old(fruitEaten) && !old(fruitActive) && FruitDue(maze.pelletsEaten, maze.pelletsTotal);
      var fruitBefore := if spawned then Spawned(level, old(fruitEaten)) else old(Fruits());
      ghosts == old(ghosts) && |ghosts| == 4 &&
      (old(player.alive) ==>
         maze.layout == EatAt(old(maze.layout), player.x, player.y) && PlayerStepped(dt) &&
         player.PowerState() == (if power then Charge(true, PowerModeDuration, false) else PowerTick(old(player.PowerState()), dt))) &&
      (!old(player.alive) ==> player.x == old(player.x) && player.y == old(player.y) && unchanged(maze)) &&
      if cleared then
        state == LevelComplete && score == old(score) + pellet + 1000 * level &&
        player.alive == old(player.alive) && player.lives == old(player.lives) &&
        unchanged(this`fruit, this`fruitActive, this`fruitTimer, this`fruitEaten) &&
        (forall i :: 0 <= i < 4 ==> Kept(ghosts[i], old(ghosts[i].x), old(ghosts[i].y), old(ghosts[i].eaten))) &&
        (!power ==> unchanged(ghosts)) &&
        (power ==> forall i :: 0 <= i < 4 ==>
           Frightened(ghosts[i], level, old(ghosts[i].eaten), old(ghosts[i].mode), old(ghosts[i].direction), old(ghosts[i].frightenedTimer)))
      else
        var chainFrom := if power then 0 else old(eatenGhostsCount);
        state == (if !player.alive && player.lives <= 0 then GameOver else old(state)) &&
        chainFrom <= eatenGhostsCount &&
        score == old(score) + pellet + ChainPoints(chainFrom, eatenGhostsCount) +
                 (if fruitEaten && !old(fruitEaten) then FruitPoints(level) else 0) &&
        Fruits() == (if player.alive then FruitTick(fruitBefore, player.x, player.y, player.radius, dt) else fruitBefore)
    }

    /** What updatePlaying does: the "Ready!" wait while its timer runs, a PlayFramed frame afterwards. */
    twostate predicate PlayingUpdated(dt: real, keys: set<Direction>)
      reads this`levelStartTimer, this`score, this`highScore, this`state, this`lives, this`fruit, this`fruitTimer
      reads this`player, this`ghosts, this`level, this`eatenGhostsCount, this`fruitActive, this`fruitEaten, player, maze, ghosts
    {
      if old(levelStartTimer) > 0.0 then ReadyFramed(dt, keys)
      else levelStartTimer == old(levelStartTimer) && PlayFramed(dt)
    }

    /** What updateStart does: the player is steered and moves, and nothing else changes. */
    twostate predicate StartUpdated(dt: real, keys: set<Direction>)
      reads this`levelStartTimer, this`score, this`highScore, this`state, this`lives, this`fruit, this`fruitTimer
      reads this`player, this`ghosts, player, maze, ghosts
    {
      unchanged(maze) && ghosts == old(ghosts) && unchanged(ghosts) &&
      unchanged(this`score, this`highScore, this`state, this`lives, this`fruit, this`fruitTimer, this`levelStartTimer) &&
      Steered(dt, keys)
    }

    /**
     * What gameLoop's switch does on the screen the frame starts on: the
     * playing and start updates, nothing while paused, and the game over and
     * level complete timers running down while positive. Only play changes
     * the state.
     */
    twostate predicate ScreenUpdated(dt: real, keys: set<Direction>)
      reads this`levelStartTimer, this`score, this`highScore, this`state, this`lives, this`fruit, this`fruitTimer
      reads this`player, this`ghosts, this`level, this`eatenGhostsCount, this`fruitActive, this`fruitEaten
      reads this`gameOverTimer, this`levelCompleteTimer, player, maze, ghosts
    {
      match old(state)
      case Playing => PlayingUpdated(dt, keys)
      case Start => StartUpdated(dt, keys)
      case Paused =>
        player == old(player) && unchanged(player) && unchanged(maze) && ghosts == old(ghosts) && unchanged(ghosts) &&
        unchanged(this`state, this`score, this`highScore, this`lives, this`levelStartTimer, this`gameOverTimer, this`levelCompleteTimer)
      case GameOver =>
        state == old(state) &&
        gameOverTimer == if old(gameOverTimer) > 0.0 then old(gameOverTimer) - dt else old(gameOverTimer)
      case LevelComplete =>
        state == old(state) &&
        levelCompleteTimer == if old(levelCompleteTimer) > 0.0 then old(levelCompleteTimer) - dt else old(levelCompleteTimer)
    }

    /** The random draws of one frame: one set per ghost. */
    ghost predicate DiceOk(dice: seq<Ghosts.GhostDice>)
    {
      |dice| == 4 && forall i :: 0 <= i < 4 ==> |dice[i].rolls| >= 20
    }

    /**
     * updatePlaying: while the "Ready!" timer runs only the player moves;
     * afterwards PlayFrame runs the rest of the frame.
     */
    method UpdatePlaying(dt: real, keys: set<Direction>, sqrt: real -> real, dice: seq<Ghosts.GhostDice>)
      requires Valid() && IsSqrt(sqrt) && DiceOk(dice)
      modifies player, maze, ghosts, this`levelStartTimer, this`score, this`highScore, this`eatenGhostsCount
      modifies this`state, this`levelCompleteTimer, this`fruit, this`fruitActive, this`fruitTimer, this`fruitEaten
      modifies this`lives, this`gameOverTimer
      ensures Valid() && highScore >= old(highScore) && score >= old(score)
      ensures PlayingUpdated(dt, keys)
      ensures state == old(state) || state == LevelComplete || state == GameOver
      ensures state == LevelComplete && old(state) != LevelComplete ==> maze.AreAllPelletsEaten()
      ensures state == GameOver && old(state) != GameOver ==> lives <= 0 && gameOverTimer == 2000.0
      ensures player.lives == old(player.lives) || (old(player.alive) && !player.alive && player.lives == old(player.lives) - 1)
    {
      if levelStartTimer > 0.0 {
        ReadyPhase(dt, keys);
        return;
      }
      PlayFrame(dt, sqrt, dice);
    }

    /**
     * A frame of updatePlaying after the "Ready!" timer: the player moves
     * and eats, and the last pellet ends the frame there, before the ghosts
     * and the fruit; otherwise the ghosts move and meet the player, a death
     * is handled, and the fruit is updated. The score grows by the pellet,
     * the level bonus or else the chain of eaten ghosts (started again by a
     * power pellet) and the fruit.
     */
    method PlayFrame(dt: real, sqrt: real -> real, dice: seq<Ghosts.GhostDice>)
      requires Valid() && IsSqrt(sqrt) && DiceOk(dice)
      modifies player, maze, ghosts, this`score, this`highScore, this`eatenGhostsCount
      modifies this`state, this`levelCompleteTimer, this`fruit, this`fruitActive, this`fruitTimer, this`fruitEaten
      modifies this`lives, this`gameOverTimer
      ensures Valid() && highScore >= old(highScore) && score >= old(score)
      ensures player.lives == old(player.lives) || (old(player.alive) && !player.alive && player.lives == old(player.lives) - 1)
      ensures state == GameOver && old(state) != GameOver ==> lives <= 0 && gameOverTimer == 2000.0
      ensures PlayFramed(dt)
    {
      var hit, cleared := PlayerPhase(dt);
      if cleared {
        return;
      }
      AfterPlayer(dt, sqrt, dice);
      FruitBounds(level);
    }

    /** updatePlaying after the player's pellet: the ghosts, a death, and the fruit. */
    method AfterPlayer(dt: real, sqrt: real -> real, dice: seq<Ghosts.GhostDice>)
      requires Valid() && IsSqrt(sqrt) && DiceOk(dice)
      modifies ghosts, player`score, player`alive, player`lives, this`eatenGhostsCount, this`score, this`highScore
      modifies this`fruit, this`fruitActive, this`fruitTimer, this`fruitEaten, this`lives, this`state, this`gameOverTimer
      ensures Valid() && highScore >= old(highScore)
      ensures state == old(state) || (state == GameOver && lives <= 0 && gameOverTimer == 2000.0)
      ensures player.lives == old(player.lives) - (if old(player.alive) && !player.alive then 1 else 0)
      ensures !player.alive ==> lives == player.lives && unchanged(this`fruit, this`fruitActive, this`fruitTimer, this`fruitEaten)
      ensures player.alive ==> Fruits() == FruitTick(old(Fruits()), player.x, player.y, player.radius, dt)
      ensures state == (if !player.alive && player.lives <= 0 then GameOver else old(state))
      ensures old(eatenGhostsCount) <= eatenGhostsCount
      ensures score == old(score) + ChainPoints(old(eatenGhostsCount), eatenGhostsCount) +
                       (if fruitEaten && !old(fruitEaten) then FruitPoints(level) else 0)
      ensures player.x == old(player.x) && player.y == old(player.y) && player.direction == old(player.direction) &&
        player.PowerState() == old(player.PowerState()) && unchanged(maze)
    {
      GhostPhase(dt, sqrt, dice);
      if !player.alive {
        HandlePlayerDeath();
        return;
      }
      UpdateFruit(dt, sqrt);
    }

    /**
     * The two keydown listeners in order: in play or on the start screen
     * an arrow steers and Escape/p/P toggles the pause; any key starts the
     * game from the start screen, restarts after a finished game over and
     * moves on after a finished level; r/R then restarts in any state.
     */
    method KeyDown(key: Key)
      requires Valid()
      modifies maze, this`player, player, this`ghosts, ghosts, this`state, this`levelStartTimer
      modifies this`score, this`highScore, this`level, this`lives, this`eatenGhostsCount
      modifies this`fruit, this`fruitTimer, this`fruitActive, this`fruitEaten
      ensures Valid()
      ensures key == RestartKey ==> state == Start && Staged() && score == 0 && level == 1 && lives == 3
      ensures key != RestartKey && old(state) == Start ==> state == Playing && levelStartTimer == 500.0
      ensures key == PauseKey && old(state) == Playing ==> state == Paused
      ensures key.Arrow? && old(state) == Playing ==>
        state == Playing && (player.direction, player.nextDirection) ==
          Steer(maze.layout, player.x, player.y, (old(player.direction), old(player.nextDirection)), key.d)
      ensures key != RestartKey && old(state) == Paused ==> state == Paused
      ensures key != RestartKey && old(state) == GameOver && old(gameOverTimer) <= 0.0 ==>
        state == Start && Staged() && score == 0 && level == 1 && lives == 3
      ensures key != RestartKey && old(state) == GameOver && old(gameOverTimer) > 0.0 ==> state == GameOver
      ensures key != RestartKey && old(state) == LevelComplete && old(levelCompleteTimer) <= 0.0 ==>
        state == LevelComplete && level == old(level) + 1 && maze.layout == LevelLayout(level)
      ensures key != RestartKey && old(state) == LevelComplete && old(levelCompleteTimer) > 0.0 ==>
        state == LevelComplete && level == old(level)
    {
      FirstKeyListener(key);
      if key == RestartKey {
        ResetGame();
      }
    }

    /** The first keydown listener. */
    method FirstKeyListener(key: Key)
      requires Valid()
      modifies maze, this`player, player, this`ghosts, ghosts, this`state, this`levelStartTimer
      modifies this`score, this`highScore, this`level, this`lives, this`eatenGhostsCount
      modifies this`fruit, this`fruitTimer, this`fruitActive, this`fruitEaten
      ensures Valid()
      ensures old(state) == Start ==> state == Playing && levelStartTimer == 500.0
      ensures key == PauseKey && old(state) == Playing ==> state == Paused
      ensures key.Arrow? && old(state) == Playing ==>
        state == Playing && (player.direction, player.nextDirection) ==
          Steer(maze.layout, player.x, player.y, (old(player.direction), old(player.nextDirection)), key.d)
      ensures old(state) == Paused ==> state == Paused
      ensures old(state) == GameOver && old(gameOverTimer) <= 0.0 ==>
        state == Start && Staged() && score == 0 && level == 1 && lives == 3
      ensures old(state) == GameOver && old(gameOverTimer) > 0.0 ==> state == GameOver
      ensures old(state) == LevelComplete && old(levelCompleteTimer) <= 0.0 ==>
        state == LevelComplete && level == old(level) + 1 && maze.layout == LevelLayout(level)
      ensures old(state) == LevelComplete && old(levelCompleteTimer) > 0.0 ==> state == LevelComplete && level == old(level)
    {
      // The listener's tests run one after the other, but none of its
      // branches leads into the state a later test looks for (startGame
      // leaves the start screen for play, resetGame returns to it), so one
      // branch per state at the time of the key does the same.
      match state
      case Playing =>
        SteerOrPause(key);
      case Start =>
        SteerOrPause(key);
        StartGame();
      case Paused =>
      case GameOver =>
        EndScreenKey();
      case LevelComplete =>
        EndScreenKey();
    }

    /** The first listener's last two tests: a key on a finished game over restarts, on a finished level moves on. */
    method EndScreenKey()
      requires Valid()
      modifies maze, this`player, player, this`ghosts, ghosts, this`state
      modifies this`score, this`highScore, this`level, this`lives, this`eatenGhostsCount
      modifies this`fruit, this`fruitTimer, this`fruitActive, this`fruitEaten
      ensures Valid()
      ensures old(state) == GameOver && old(gameOverTimer) <= 0.0 ==>
        state == Start && Staged() && score == 0 && level == 1 && lives == 3
      ensures old(state) == GameOver && old(gameOverTimer) > 0.0 ==> state == GameOver
      ensures old(state) == LevelComplete && old(levelCompleteTimer) <= 0.0 ==>
        state == LevelComplete && level == old(level) + 1 && maze.layout == LevelLayout(level)
      ensures old(state) == LevelComplete && old(levelCompleteTimer) > 0.0 ==> state == LevelComplete && level == old(level)
      ensures old(state) != GameOver && old(state) != LevelComplete ==> state == old(state) && level == old(level)
    {
      if state == GameOver && gameOverTimer <= 0.0 {
        ResetGame();
      } else if state == LevelComplete && levelCompleteTimer <= 0.0 {
        NextLevel();
      }
    }

    /** The switch of the first keydown listener: an arrow steers, Escape/p/P toggles the pause. */
    method SteerOrPause(key: Key)
      requires player.maze == maze
      modifies player`direction, player`nextDirection, this`state
      ensures key.Arrow? ==>
        state == old(state) && (player.direction, player.nextDirection) ==
          Steer(maze.layout, player.x, player.y, (old(player.direction), old(player.nextDirection)), key.d)
      ensures key == PauseKey ==>
        unchanged(player) && state == (if old(state) == Playing then Paused else if old(state) == Paused then Playing else old(state))
      ensures !key.Arrow? && key != PauseKey ==> unchanged(player) && state == old(state)
    {
      match key
      case Arrow(d) =>
        SteerKey(d, true);
      case PauseKey =>
        TogglePause();
      case _ =>
    }

    /**
     * gameLoop for one animation frame: the frame time since the last call,
     * at most 60 ms; when the limiter lets the frame through, the update of
     * the current screen (nothing while paused).
     */
    method GameLoop(timestamp: real, keys: set<Direction>, sqrt: real -> real, dice: seq<Ghosts.GhostDice>)
      returns (render: bool, deltaTime: real)
      requires Valid() && IsSqrt(sqrt) && DiceOk(dice)
      modifies animationTimer, this`lastTimestamp
      modifies player, maze, ghosts, this`levelStartTimer, this`score, this`highScore, this`eatenGhostsCount
      modifies this`state, this`levelCompleteTimer, this`fruit, this`fruitActive, this`fruitTimer, this`fruitEaten
      modifies this`lives, this`gameOverTimer
      ensures Valid() && lastTimestamp == timestamp
      ensures deltaTime == ClampDelta(timestamp - old(lastTimestamp))
      ensures old(animationTimer.lastFrameTime) == 0.0 ==> render
      ensures !render ==>
        unchanged(player) && unchanged(maze) && unchanged(ghosts) &&
        unchanged(this`state, this`score, this`highScore, this`lives, this`levelStartTimer, this`gameOverTimer, this`levelCompleteTimer)
      ensures render && old(state) != Playing ==> ScreenUpdated(deltaTime, keys)
      ensures render && old(state) == Playing && old(levelStartTimer) > 0.0 ==> ReadyFramed(deltaTime, keys)
    {
      render, deltaTime := Clock(timestamp);
      if render {
        UpdateScreen(deltaTime, keys, sqrt, dice);
      }
    }

    /** The timing part of gameLoop: the frame time, at most 60 ms, and whether the limiter lets the frame through. */
    method Clock(timestamp: real) returns (render: bool, deltaTime: real)
      requires animationTimer.Valid()
      modifies animationTimer, this`lastTimestamp
      ensures animationTimer.Valid() && lastTimestamp == timestamp
      ensures deltaTime == ClampDelta(timestamp - old(lastTimestamp))
      ensures old(animationTimer.lastFrameTime) == 0.0 ==> render
    {
      deltaTime := timestamp - lastTimestamp;
      if deltaTime > 60.0 {
        deltaTime := 60.0;
      }
      lastTimestamp := timestamp;
      render := animationTimer.Update(timestamp);
    }

    /** The switch of gameLoop on the current screen. */
    method UpdateScreen(dt: real, keys: set<Direction>, sqrt: real -> real, dice: seq<Ghosts.GhostDice>)
      requires Valid() && IsSqrt(sqrt) && DiceOk(dice)
      modifies player, maze, ghosts, this`levelStartTimer, this`score, this`highScore, this`eatenGhostsCount
      modifies this`state, this`levelCompleteTimer, this`fruit, this`fruitActive, this`fruitTimer, this`fruitEaten
      modifies this`lives, this`gameOverTimer
      ensures Valid() && ScreenUpdated(dt, keys)
    {
      match state
      case Playing =>
        UpdatePlaying(dt, keys, sqrt, dice);
      case Paused =>
      case Start =>
        UpdateStart(dt, keys);
      case GameOver =>
        UpdateGameOver(dt);
      case LevelComplete =>
        UpdateLevelComplete(dt);
    }
  }
}
