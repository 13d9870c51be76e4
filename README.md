# Pac-Man portfolio game: a Dafny model of its core

This project models the game logic of a browser Pac-Man clone. It covers five
parts:

- **The maze** (`GameMap` in `map.js`). The model covers:
  - the 28-by-31 cell layout and its cell codes (empty, wall, pellet, power pellet, ghost house, ghost door);
  - the pellet counters;
  - the extra walls of levels 3 and 5;
  - the collision test `isValidPosition`, with its tunnel rows;
  - the A* search `findPath`.
- **The ghosts** (`Ghost` and its four subclasses in `ghosts.js`). The model covers:
  - the scatter/chase/frightened mode machine and its timers;
  - eating, returning home, waiting in the house and leaving it;
  - the stuck detector;
  - path planning and following;
  - direction choice at walls;
  - the four chase-target rules, including Pinky's "up" offset and Clyde's 8-cell radius.
- **Pac-Man** (`Player` in `player.js`). The model covers:
  - buffered turns and `canMove`;
  - movement with the tunnel wrap and centring at walls;
  - power mode and its end warning;
  - eating pellets;
  - meeting ghosts, with a doubling score for each ghost eaten;
  - death and reset.
- **The game** (`Game` in `game.js`, without the DOM). The model covers:
  - the state machine: start, playing, paused, game over and level complete;
  - the keyboard listeners;
  - the per-frame loop and its 60 ms clamp;
  - the ready timer;
  - the playing tick: the player, pellets, ghosts, collisions, death, and fruit;
  - the level bonus and high score;
  - level scaling of player speed, ghost speed and frightened time;
  - the fruit table;
  - reset and next level.
- **The helpers** (`utils.js`): circle/circle and circle/rectangle collision, the
  frame-rate limiter `AnimationTimer`, and the particle container
  `ParticleSystem`.

The model is split by concern. `map.js` and `utils.js` each feed several
files, and `geometry.dfy` gathers what several source files share:

| file | models | from |
|---|---|---|
| `wrappers.dfy` | the `Option` type | (no source file) |
| `geometry.dfy` | directions, cells, points, and the square-root oracle | `map.js`, `ghosts.js`, `player.js` |
| `layout.dfy` | the level-one layout, cell classification, pellet counts, the level wall lists | `map.js` |
| `search.dfy` | walks and routes on the grid, the A* invariants, the heuristic | `map.js` |
| `gamemap.dfy` | class `GameMap` and its A* search | `map.js` |
| `collision.dfy` | the `Collision` helpers | `utils.js` |
| `animation.dfy` | class `AnimationTimer` | `utils.js` |
| `particles.dfy` | class `ParticleSystem` | `utils.js` |
| `ghosts.dfy` | class `Ghost` and the four kinds of ghost | `ghosts.js` |
| `player.dfy` | class `Player` | `player.js` |
| `game.dfy` | class `Game` | `game.js` |

Objects whose fields the JavaScript updates in place are Dafny classes. Their
methods are proved against specification functions, for example:

- `GameMap.CheckAndRemovePellet` against `PelletAt` and `EatAt`;
- `Player.Update` against `PowerTick` and `Moved`;
- `ParticleSystem.Update` against `Evolve`;
- `GameMap.FindPath` against `IsRoute` and `IsWalk`.

Lemmas then prove what the game relies on, such as:

- idempotent eating;
- consistent pellet counters;
- power lasting exactly 7 seconds;
- doubling ghost points;
- an A* result that is a shortest route.

`Math.sqrt` is a parameter `sqrt` that must return the non-negative root
(`IsSqrt`). Every distance comparison is restated on squares. `Math.random()`
and `Date.now()` are parameters too: `GhostDice` holds a ghost's random
values, `Draw` holds a particle's random values, and `bob` is the house-bobbing
sine.

## Model

| member | source | states |
|---|---|---|
| Geometry.Opposite | assets/js/ghosts.js:340-347 | the reverse of a direction differs from it and negates both deltas |
| Geometry.OppositeInvolution | assets/js/ghosts.js:340-347 | reversing twice gives back the direction |
| Geometry.Parse | assets/js/player.js:187-202 | a name is accepted exactly when it is one of the four direction names, and it reads back to that name |
| Geometry.ParseName | assets/js/player.js:187-202 | every direction's name parses to that direction |
| Geometry.Center | assets/js/map.js:338 | a waypoint (cell + 0.5) lies in its own cell, at half-unit offsets |
| Layout.CellType | assets/js/map.js:214-220 | the stored code inside the layout, a wall for every coordinate outside it |
| Layout.OutsideIsWall | assets/js/map.js:223-235 | a point off the layout is a wall, not the door and not the house |
| Layout.ClassifiersAtCell | assets/js/map.js:223-235 | isWall, isGhostDoor and isInGhostHouse compare the floored cell's code with 1, 5 and 4; a wall is neither door nor house |
| Layout.CountGridUpdate | assets/js/map.js:91-101 | overwriting one cell changes a code's count by exactly the codes that left and arrived |
| Layout.CountGridZero | assets/js/map.js:258-261 | a code's count is zero exactly when no cell holds it |
| Layout.SetCell | assets/js/map.js:242-248 | writing a cell changes that cell only and keeps the shape |
| Layout.WalledEffect | assets/js/map.js:118-148 | a listed cell holding a pellet becomes a wall, any other listed cell keeps its code, unlisted cells are untouched |
| Layout.WalledNoPellets | assets/js/map.js:135-148 | a wall list that finds no pellet changes nothing |
| Layout.LevelThreeLayout | assets/js/map.js:118-133 | from level 3 on, exactly (6,15) and (21,15) become walls; the other four listed cells were walls already |
| Layout.ExtraWallsHaveNoEffect | assets/js/map.js:135-148 | from level 5 on the layout equals level 3's: every cell of the level-5 list is already a wall |
| MazeMap.PelletPoints | assets/js/map.js:238-255 | a dot is worth 10 and a power pellet 50, and only those two codes yield a hit |
| MazeMap.EatTwice | assets/js/map.js:238-255 | eating is idempotent: a second call in the same cell finds nothing and changes nothing |
| MazeMap.EatOthers | assets/js/map.js:238-255 | eating touches no other cell and leaves its own cell empty |
| MazeMap.EatCounts | assets/js/map.js:238-255 | eating removes exactly one pellet of the kind found and none of the other kind |
| MazeMap.TunnelRows | assets/js/map.js:264-271 | beside the map, exactly the rows with 13 <= y <= 15 are valid |
| MazeMap.InsideWallInvalid | assets/js/map.js:273-299 | a point inside the 0.8-by-0.8 wall square of a wall cell is never valid, for any positive radius |
| MazeMap.OpenCellsValid | assets/js/map.js:273-299 | a point whose eight neighbouring cells and own cell hold no wall is valid for any radius below one |
| MazeMap.CountPellets | assets/js/map.js:91-101 | the row-by-row scan returns exactly the number of dots and of power pellets |
| MazeMap.GameMap.constructor | assets/js/map.js:7-22 | a fresh map holds the level-one layout, totals counted from it, nothing eaten, counters consistent |
| MazeMap.GameMap.Reset | assets/js/map.js:46-111 | the level-one layout, totals counted from it, nothing eaten, counters consistent |
| MazeMap.GameMap.AddWalls | assets/js/map.js:118-148 | the layout becomes `Walled(old layout, cells)`, the dot total drops by the pellets walled up, counters stay consistent |
| MazeMap.GameMap.LoadLevel | assets/js/map.js:114-149 | the layout is `LevelLayout(level)`, nothing eaten, totals equal the pellets left on it |
| MazeMap.GameMap.GetCellType | assets/js/map.js:214-220 | the code at (x, y) in the current layout; any non-wall answer lies inside the layout |
| MazeMap.GameMap.CheckAndRemovePellet | assets/js/map.js:238-255 | reports `PelletAt` the old layout, leaves `EatAt` it, counts the eaten kind up by one, keeps the totals and the counter invariant |
| MazeMap.GameMap.AreAllPelletsEaten | assets/js/map.js:258-261 | on a consistent map, true exactly when no dot and no power pellet is left on the layout |
| MazeMap.GameMap.IsValidPosition | assets/js/map.js:264-300 | the double scan answers `ValidPosition`: tunnel rows off the map, else no wall square touched by the circle of 0.6 times the radius |
| MazeMap.GameMap.FindPath | assets/js/map.js:310-406 | empty when start and target share a cell; otherwise a non-empty result is a route of passable cell centres from the start's neighbour to the target and no walk is shorter; empty exactly when no walk exists |
| MazeMap.Reconstruct | assets/js/map.js:333-342 | following parent links and reversing gives a route of length g that ends in the target cell |
| Search.Heuristic | assets/js/map.js:409-411 | Manhattan distance, zero exactly at the target |
| Search.HeuristicConsistent | assets/js/map.js:409-411 | one step changes the heuristic by at most one |
| Search.HeuristicAdmissible | assets/js/map.js:409-411 | the heuristic never exceeds the length of any walk to the target |
| Search.PopOptimal | assets/js/map.js:321-333 | the open node with the least f already carries the shortest walk length to its cell |
| Search.Exhausted | assets/js/map.js:321-405 | an emptied open set means no walk from start to target exists |
| Search.IndexOfCell | assets/js/map.js:383-396 | the first open node for a cell, or past the end when there is none |
| Search.LowestIndex | assets/js/map.js:323-328 | the index of the first node with the least f |
| Search.Relax | assets/js/map.js:371-400 | the open set after offering a neighbour: a cheaper cost replaces the existing node's g, f and parent; a new cell is appended |
| Search.ChainRoute | assets/js/map.js:333-341 | a chain of parent-linked cells reversed into centres is a route |
| Collision.CircleCollision | assets/js/utils.js:176-181 | true exactly when the squared centre distance is below the squared sum of the radii (and that sum is positive) |
| Collision.CircleCollisionSymmetric | assets/js/utils.js:176-181 | swapping the circles does not change the answer |
| Collision.CircleRectCollisionExact | assets/js/utils.js:184-195 | the clamped point lies in the rectangle and is its nearest point, so any rectangle point inside the circle makes the test true |
| Animation.Round | assets/js/utils.js:153 | Math.round lands within half a unit (round half up) |
| Animation.AnimationTimer.constructor | assets/js/utils.js:126-134 | frame interval is 1000/fps and every counter starts at zero |
| Animation.AnimationTimer.Update | assets/js/utils.js:137-165 | the first timestamp is stored and renders; later a frame renders exactly when the accumulator reaches one interval, which is consumed; the FPS reading refreshes once a second |
| Particles.BetweenBounds | assets/js/utils.js:429-431 | Random.between stays in [lo, hi) |
| Particles.InitialLifeBounds | assets/js/utils.js:463 | a particle starts with a life in [0.7, 1.3) times the lifetime |
| Particles.SpawnRanges | assets/js/utils.js:455-465 | a fresh particle starts at the origin with maxLife the lifetime; the x and y speed factors are separate draws, each in [0.5, 1); size lies in [0.5, 1.5) and life in [0.7, 1.3) times the given values |
| Particles.Advance | assets/js/utils.js:473-477 | a tick moves a particle by its velocity and takes one unit of life, nothing else |
| Particles.EvolveAppend | assets/js/utils.js:471-484 | the update works particle by particle and keeps their order |
| Particles.EvolveSurvivors | assets/js/utils.js:471-484 | every survivor has positive life and is some old particle advanced once |
| Particles.EvolveKeepsLiving | assets/js/utils.js:471-484 | every particle whose advanced life is positive survives |
| Particles.ParticleSystem.constructor | assets/js/utils.js:447-451 | starts with no particles |
| Particles.ParticleSystem.CreateParticles | assets/js/utils.js:453-468 | appends exactly `count` particles, the i-th being `Spawn` of the i-th draw (one angle, a separate speed factor for each axis, a size and a life), each with maxLife equal to the lifetime, and keeps the old ones in front |
| Particles.ParticleSystem.Update | assets/js/utils.js:471-484 | the backwards splice loop leaves exactly `Evolve(old particles)` |
| Ghosts.BaseSpeedOf | assets/js/ghosts.js:838-843 | a positive base speed, 0.09 exactly for Blinky |
| Ghosts.ScatterCorners | assets/js/ghosts.js:845-848 | the four scatter targets are distinct corners two cells in from the map edges |
| Ghosts.InitialWaitTime | assets/js/ghosts.js:862-864 | a non-negative house wait that is zero exactly for Blinky (Pinky 3000, Inky 7000, Clyde 5000) |
| Ghosts.NextMode | assets/js/ghosts.js:298-309 | the mode switch never yields frightened and goes to chase exactly from scatter |
| Ghosts.NextModeAlternates | assets/js/ghosts.js:298-309 | two switches return to the starting mode |
| Ghosts.BlinkyTarget | assets/js/ghosts.js:854-860 | Blinky chases Pac-Man's position |
| Ghosts.PinkyTarget | assets/js/ghosts.js:882-909 | Pinky aims four cells ahead, and four up and four left when Pac-Man faces up |
| Ghosts.InkyTarget | assets/js/ghosts.js:932-962 | Inky doubles the vector from Blinky to two cells ahead of Pac-Man |
| Ghosts.ClydeTarget | assets/js/ghosts.js:984-1004 | Clyde chases when farther than 8 cells (squared distance above 64), else heads to his scatter corner |
| Ghosts.KeepMembers | assets/js/ghosts.js:706-753 | the filtered list holds exactly the allowed candidates |
| Ghosts.AllPossibleDirectionsExact | assets/js/ghosts.js:228-250 | a direction is listed exactly when the cell it leads to is not a wall |
| Ghosts.PossibleDirectionsRule | assets/js/ghosts.js:706-753 | never empty; the reverse appears only alone, and exactly when nothing else is passable; any other direction appears exactly when its cell is passable |
| Ghosts.FirstOpenRoll | assets/js/ghosts.js:455-469 | the first rolled cell that is not a wall, or none when all 20 rolls hit walls |
| Ghosts.Cut | assets/js/ghosts.js:514-516 | a path cut to at most 10 waypoints, untouched when already short |
| Ghosts.PlannedCut | assets/js/ghosts.js:507-516 | for a target at least 4 away, cutting findPath's route to its first 10 waypoints gives a planned path: a route no longer than any walk between the two cells, or nothing only when the cells coincide or no walk joins them |
| Ghosts.Best | assets/js/ghosts.js:756-792 | a listed direction of least score, or the current one when the list is empty |
| Ghosts.BestIsFirstLeast | assets/js/ghosts.js:756-792 | the chosen direction is the first one of least score |
| Ghosts.AlignCloser | assets/js/ghosts.js:658-682 | the corridor alignment never moves away from the cell centre and stays in the cell |
| Ghosts.AlignKeepsWrap | assets/js/ghosts.js:649-670 | far from the centre a vertical step keeps the tunnel-wrapped x (x = -0.9 going up ends at 27), while near the centre the x is centred |
| Ghosts.ArrivedSplit | assets/js/ghosts.js:523-532 | the waypoints followPath drops are exactly the leading ones closer than one step; the first one kept is at least a step away |
| Ghosts.TowardPoints | assets/js/ghosts.js:535-540 | the direction chosen towards a waypoint points along its larger offset, vertically on ties |
| Ghosts.UnitStep | assets/js/ghosts.js:405-416 | the step towards the house exit has length equal to the speed |
| Ghosts.Ghost.constructor | assets/js/ghosts.js:17-76 | start position, facing up, scatter and previous mode scatter, base speed of its kind, 7000 ms frightened duration; frightened, eaten, recovering, waiting, leaving and blinking all clear; mode, frightened, blink, recover, wait and path timers at 0; target (0, 0), no path, stuck counter 0 and last position (0, 0) |
| Ghosts.Ghost.ReverseDirection | assets/js/ghosts.js:340-347 | the direction becomes its opposite |
| Ghosts.Ghost.SwitchMode | assets/js/ghosts.js:298-309 | next mode, its duration (7000 scatter, 20000 chase), reversed direction |
| Ghosts.Ghost.StartFrightened | assets/js/ghosts.js:312-329 | ignored while eaten; otherwise remembers the mode, frightened for the full duration, half speed, reversed |
| Ghosts.Ghost.EndFrightened | assets/js/ghosts.js:332-337 | back to the remembered mode and base speed, not blinking |
| Ghosts.Ghost.TickMode | assets/js/ghosts.js:258-263 | outside fright and eaten state the mode timer counts down and switches at zero |
| Ghosts.Ghost.TickFrightened | assets/js/ghosts.js:266-286 | the fright timer counts down, blinking starts at 5000 ms left, fright ends at zero |
| Ghosts.Ghost.TickRecovery | assets/js/ghosts.js:289-294 | recovery counts down and ends at zero |
| Ghosts.Ghost.ManageTimers | assets/js/ghosts.js:253-295 | the path timer grows by dt; outside fright and eaten state the scatter/chase timer counts down and at zero switches to the next mode for its length and reverses the direction (`ModeTicked`, `TimedDirection`); the fright timer counts down, blinking exactly in its last 5000 ms, and at zero fright ends with blinking off, the remembered mode and base speed (`FrightTicked`); a ghost that was not frightened keeps its fright fields; recovery counts down and ends at zero (`RecoveryTicked`) |
| Ghosts.Ghost.GetEaten | assets/js/ghosts.js:350-354 | eaten, not frightened, double speed |
| Ghosts.Ghost.CanMoveTo | assets/js/ghosts.js:572-594 | tunnel rows only off the map; inside, exactly the passable cells (the door only when eaten) |
| Ghosts.Ghost.GetAllPossibleDirections | assets/js/ghosts.js:228-250 | the non-wall neighbours in up, right, down, left order |
| Ghosts.Ghost.GetPossibleDirections | assets/js/ghosts.js:706-753 | the list `PossibleDirections` describes |
| Ghosts.Ghost.GetBestDirection | assets/js/ghosts.js:756-792 | the first direction of least distance score to the target, or the current direction for an empty list |
| Ghosts.Ghost.RecoverFromStuckState | assets/js/ghosts.js:209-225 | snaps to the cell centre, clears the path and counter, picks one of the open directions |
| Ghosts.Ghost.CheckForStuckState | assets/js/ghosts.js:184-206 | the counter and last position move as `StuckChecked`: a move of 0.05 or more clears the counter and records the position; a shorter one counts, and at the tenth the counter is cleared and recovery centres the ghost, drops its path and picks a direction; a ghost not stuck keeps its position, path and direction |
| Ghosts.Ghost.UpdatePath | assets/js/ghosts.js:486-517 | leaves a `PlannedPath`: none for targets nearer than 4; otherwise the first 10 waypoints of a route no longer than any walk between the cells, empty only when the cells coincide or no walk joins them |
| Ghosts.Ghost.FollowPath | assets/js/ghosts.js:520-569 | the leading waypoints within a step are dropped; with none left nothing moves; otherwise the ghost faces the next one along its larger offset and steps one speed-length at it when canMoveTo allows, else is centred across its motion where allowed and replans (`Followed`); the path only loses waypoints or is replanned |
| Ghosts.Ghost.DropWaypoint | assets/js/ghosts.js:529-532 | shifting a waypoint within a step and following the rest ends where following the whole path does |
| Ghosts.Ghost.FollowedAfterDrop | assets/js/ghosts.js:529-532 | a path whose first waypoint is within a step is followed exactly as its tail |
| Ghosts.Ghost.HeadFor | assets/js/ghosts.js:535-568 | facing the next waypoint along its larger offset, then the step or the nudge and replan of `HeadedFor` |
| Ghosts.Ghost.StepOrReplan | assets/js/ghosts.js:543-568 | the speed-length step straight at the waypoint when canMoveTo allows it, with the path kept; otherwise the nudge and a `PlannedPath` (a cut shortest route, empty only for a near target, the same cell or no walk) |
| Ghosts.Ghost.Unblock | assets/js/ghosts.js:550-567 | a blocked step: the nudge (`Nudged`), then a `PlannedPath` from where it left the ghost |
| Ghosts.Ghost.Nudge | assets/js/ghosts.js:551-564 | a blocked ghost is centred across its motion only where canMoveTo allows it and is never moved along it |
| Ghosts.Ghost.HandleEatenState | assets/js/ghosts.js:357-383 | inside the house it revives (recovering 3000 ms, waiting 1000 ms, base speed) without moving; outside it targets (13.5, 14), replans through the door every 100 ms, and ends where following that path leaves it |
| Ghosts.Ghost.EnterHouse | assets/js/ghosts.js:359-369 | revived: not eaten or frightened, recovering 3000 ms, base speed, waiting 1000 ms |
| Ghosts.Ghost.ReturnHome | assets/js/ghosts.js:371-381 | targets the house centre, replans through the door once the path timer reaches 100 ms, and ends where following the (re)planned path leaves it |
| Ghosts.Ghost.Replan | assets/js/ghosts.js:444-447 | below the interval nothing changes; at it the timer resets and a `PlannedPath` (a cut shortest route, empty only for a near target, the same cell or no walk) is stored |
| Ghosts.Ghost.HandleWaitingInHouse | assets/js/ghosts.js:386-396 | bobs by 0.005 times the sine, counts the wait down and starts leaving at zero |
| Ghosts.Ghost.HandleLeavingHouse | assets/js/ghosts.js:399-418 | within 0.1 of the exit it stops leaving and faces left; otherwise it steps straight towards (13.5, 11) at its speed |
| Ghosts.Ghost.MoveInDirection | assets/js/ghosts.js:628-703 | an open step keeps the direction and moves to the wrapped step, centred across the motion (a wrapped x far from the centre is kept); a blocked one snaps to the cell centre and takes the `pick`-th possible direction when frightened, else `Best` |
| Ghosts.Ghost.TurnAtWall | assets/js/ghosts.js:687-702 | snapped to the cell centre; the new direction is the `pick`-th possible one when frightened, else the first one of least distance score (`Best`) |
| Ghosts.Ghost.Move | assets/js/ghosts.js:597-625 | with a path and no fright it ends where following the path leaves it; otherwise the path is kept and it takes the `Heading` direction and makes moveInDirection's step (`Travelled`) |
| Ghosts.Ghost.ChooseHeading | assets/js/ghosts.js:604-621 | frightened: keep the direction with probability 0.8 when possible, else a random possible one; otherwise the best direction |
| Ghosts.Ghost.RollTarget | assets/js/ghosts.js:455-469 | the target becomes the first non-wall roll, or stays when all 20 rolls are walls |
| Ghosts.Ghost.ChooseRandomTarget | assets/js/ghosts.js:451-474 | below 1000 ms nothing changes; once due the target is the first open roll (or stays when all 20 are walls), a `PlannedPath` to it is stored and the timer restarts |
| Ghosts.Ghost.RollAndPlan | assets/js/ghosts.js:453-473 | the target becomes the first open roll (or stays), a `PlannedPath` to it is stored, and the timer restarts at 0 |
| Ghosts.Ghost.DetermineTarget | assets/js/ghosts.js:421-448 | frightened: the random target and plan of chooseRandomTarget; scatter: its corner; chase: its kind's chase target; a `PlannedPath` to the target every 500 ms |
| Ghosts.Ghost.Reset | assets/js/ghosts.js:795-814 | `AtReset`: back to the start facing up with no path and a fresh stuck detector (count 0, last position the start), scatter for 7000 ms, frightened, eaten and recovering cleared, base speed; all but Blinky wait in the house for their kind's time, Blinky keeps its wait flag and timer; leavingHouse, blinking and previousMode are left as they were |
| Ghosts.Ghost.ResetPosition | assets/js/ghosts.js:795-807 | back to the start facing up with no path and a fresh stuck detector |
| Ghosts.Ghost.ResetMode | assets/js/ghosts.js:799-805 | scatter for 7000 ms, frightened, eaten and recovering cleared, base speed; no other flag changes |
| Ghosts.Ghost.Update | assets/js/ghosts.js:155-181 | after the timers (`ModeTicked`, and `FrightTicked`/`RecoveryTicked` except for a revived ghost) and the stuck check (a stuck ghost is centred and faces the picked direction, otherwise the mode switch may reverse it): the stuck detector's counter and last position as `StuckChecked`; a waiting ghost bobs, counts down and starts leaving at zero (`Waited`); a leaving one steps to the exit or stops there facing left (`Leaving`), both keeping the path and the grown path timer; an eaten one revives in the house (not frightened, base speed, facing, path, target and path timer kept) or targets (13.5, 14) and follows a path replanned once the path timer reaches 100 ms, which clears the timer; any other targets by mode (`ModeTarget`, a random roll each second when frightened) and moves as `Travelled` along a path replanned once the timer reaches its interval, which clears it |
| Ghosts.Ghost.Prelude | assets/js/ghosts.js:156-160 | the timers as `ModeTicked`, `FrightTicked` and `RecoveryTicked`, then the stuck check: the ghost stays put (centred in its cell when stuck), faces the stuck pick or `TimedDirection`, loses its path when stuck, and its path timer grows by dt; the counter and last position as `StuckChecked`; waiting, leaving, eaten, wait timer and target unchanged |
| Ghosts.Ghost.Act | assets/js/ghosts.js:162-180 | the behaviour dispatch from the current state: waiting bobs and counts down (`Waited`), leaving steps to the exit (`Leaving`), both with path and path timer kept; eaten revives (not frightened, base speed, facing, path, target and path timer kept) or heads home along a replanned path; otherwise the mode's target and the `Travelled` move; a replan clears the path timer; the mode clock is unchanged, and fright, speed and recovery change only on revival |
| Ghosts.Ghost.Housed | assets/js/ghosts.js:163-171 | a waiting ghost as `Waited`, a leaving one as `Leaving`, each with path and path timer kept |
| Ghosts.Ghost.Roam | assets/js/ghosts.js:172-180 | `Roamed`: an eaten ghost revives in the house (not frightened, base speed, facing, path, target and path timer kept) or targets (13.5, 14) and follows a path replanned at 100 ms; any other targets by mode and moves as `Travelled` along a path replanned at its interval (1000 ms when frightened, else 500 ms); the path timer is cleared exactly when it reached the interval |
| Players.Probe | assets/js/player.js:183-202 | the probe point is 0.9 radius ahead in the direction |
| Players.WallBlocks | assets/js/player.js:178-215 | a wall square under the probe point forbids the direction |
| Players.OpenWay | assets/js/player.js:178-215 | a probe point surrounded by open cells allows the direction |
| Players.StepWrap | assets/js/player.js:107-130 | one step at the player's speed, wrapping to column 27 or 0 through the tunnel |
| Players.HalfwayCloser | assets/js/player.js:144-172 | the centring nudge halves the distance to the cell centre and stays in the cell |
| Players.MovedIsValidOrStill | assets/js/player.js:105-173 | after a move the player stands still or at a valid position |
| Players.MovedStaysInColumns | assets/js/player.js:105-173 | the tunnel keeps the player inside the map columns |
| Players.NudgeCentres | assets/js/player.js:141-172 | a blocked move never moves along its direction and never away from the centre line |
| Players.PowerTick | assets/js/player.js:81-93 | power counts down; it stays on exactly while time is left, warning exactly in the last 2000 ms |
| Players.PowerTickOk | assets/js/player.js:81-93 | activation (player.js lines 286-293) and every tick keep the power state consistent |
| Players.PowerLasts | assets/js/player.js:81-93 | over any run of ticks, power stays on exactly while the elapsed time is below the time left |
| Players.PowerWindow | assets/js/player.js:81-93 | from activation (player.js lines 286-293), power is on exactly for the first 7000 ms and warns exactly from 5000 to 7000 ms |
| Players.GhostPoints | assets/js/player.js:316 | at least 200 points |
| Players.GhostPointsDouble | assets/js/player.js:316 | each ghost eaten doubles the reward: 200, 400, 800, 1600 |
| Players.Player.constructor | assets/js/player.js:7-43 | given position, speed 0.1, facing right, alive, no power, score 0, 3 lives |
| Players.Player.CanMove | assets/js/player.js:178-215 | true exactly for a valid direction name that `Movable` allows |
| Players.Player.SetDirection | assets/js/player.js:218-233 | an allowed direction is taken at once; a blocked one is buffered; an unknown name changes nothing |
| Players.Player.Update | assets/js/player.js:73-175 | dead: nothing; alive: power ticks, the buffered turn is taken when possible, the position becomes `Moved` |
| Players.Player.TickPowerMode | assets/js/player.js:81-93 | the power state advances by `PowerTick`; speed drops to base when power ends |
| Players.Player.TakeBufferedTurn | assets/js/player.js:96-102 | a buffered direction that is now possible becomes current |
| Players.Player.Advance | assets/js/player.js:105-173 | the new position is `Moved`; the moved flag is set when a full step was taken |
| Players.Player.StepOrCentre | assets/js/player.js:137-173 | takes the wrapped step when valid, else the centring nudge |
| Players.Player.Centre | assets/js/player.js:141-172 | the position becomes the centring nudge |
| Players.Player.CheckPellets | assets/js/player.js:236-283 | eats `PelletAt` the map, adds its points, and a power pellet activates power mode |
| Players.Player.ActivatePowerMode | assets/js/player.js:286-293 | power on for the full duration, no warning, speed times 1.2 |
| Players.Player.CheckGhostCollision | assets/js/player.js:296-306 | true exactly when the squared distance is below 0.7 squared |
| Players.Player.CollideWithGhost | assets/js/player.js:309-343 | powered against a non-recovering ghost: the ghost is eaten and 200 * 2^n points are scored; otherwise a ghost neither frightened nor eaten kills |
| Players.Player.Die | assets/js/player.js:353-372 | dead, one life lost only when alive before |
| Players.Player.Reset | assets/js/player.js:375-385 | placed, facing right, alive, no power, speed times 1.2, not yet moved |
| Games.ScalingBounds | assets/js/game.js:97-114 | speed factors in [1, 2], fright factor in [0.25, 1], fright duration in [2000, 7000] |
| Games.ScalingMonotone | assets/js/game.js:97-114 | higher levels are never slower and never frightened longer |
| Games.GhostLevelSpeed | assets/js/game.js:104-109 | a ghost's level speed lies in [0.08, 0.18] |
| Games.GhostLevelSpeedProduct | assets/js/game.js:104-109 | base speed times factor, with Blinky the fastest at every level |
| Games.PlayerLevelSpeed | assets/js/game.js:97-98 | the player's level speed lies in [0.12, 0.24] |
| Games.DoubleReduction | assets/js/game.js:797-811 | the fright timer applies the level reduction twice, floored at 2000, never above the duration |
| Games.SecondLevelFrightenedTime | assets/js/game.js:797-811 | at level 2 the duration is 5950 ms but the timer is 5057.5 ms |
| Games.FruitKindFor | assets/js/game.js:942-949 | cherry up to level 2, strawberry for levels 3-4, orange above |
| Games.FruitBounds | assets/js/game.js:956-971 | fruit points at least the base, fruit time in [5000, 10000], 5000 from level 6 |
| Games.FruitTable | assets/js/game.js:956-982 | fruit points for levels 1-6: 100, 120, 420, 480, 900, 1000 |
| Games.FruitDueAt | assets/js/game.js:926-937 | with 240 dots the fruit appears at 80 and 160 eaten, not at 81 |
| Games.ChainPointsAppend | assets/js/game.js:771-775 | each ghost eaten adds its doubled reward to the chain |
| Games.ChainTotal | assets/js/game.js:771-775 | n ghosts in one power period score 200 * (2^n - 1) |
| Games.ClampDelta | assets/js/game.js:634-637 | the frame delta never exceeds 60 and is kept below that |
| Games.SteerAllRight | assets/js/game.js:713-717 | no key keeps the heading; a movable right arrow always wins, since it is applied last |
| Games.Game.constructor | assets/js/game.js:8-69 | level 1, score 0, 3 lives, the saved high score, a 60 fps timer, and an initialised, staged game |
| Games.Game.NewTimer | assets/js/game.js:51 | a fresh 60 fps timer |
| Games.Game.NewMap | assets/js/game.js:18 | a fresh consistent map |
| Games.Game.Initialize | assets/js/game.js:74-135 | the map holds the level's layout, actors are staged in state start, score and lives untouched |
| Games.Game.SetUpActors | assets/js/game.js:80-133 | fresh player and ghosts, fruit and ghost counter cleared, state start |
| Games.Game.LoadMap | assets/js/game.js:76-77 | the map holds `LevelLayout(level)` with nothing eaten |
| Games.Game.NewPlayer | assets/js/game.js:80-98 | a fresh player 0.1 below its start, facing right, at the level speed |
| Games.Game.NewGhosts | assets/js/game.js:101-121 | four fresh ghosts scaled for the level |
| Games.Game.CreateGhosts | assets/js/game.js:138-179 | four distinct fresh ghosts, Blinky, Pinky, Inky, Clyde, at the map's ghost starts |
| Games.Game.ScaleGhost | assets/js/game.js:104-116 | base speed by kind and level, fright duration reduced above level 1 |
| Games.Game.ScaleNewGhosts | assets/js/game.js:104-121 | every ghost scaled for the level |
| Games.Game.StartGame | assets/js/game.js:478-486 | from start only: playing with a 500 ms ready timer |
| Games.Game.TogglePause | assets/js/game.js:489-501 | playing and paused swap; other states stay |
| Games.Game.ResumeGame | assets/js/game.js:516-521 | paused becomes playing; other states stay |
| Games.Game.UpdateScore | assets/js/game.js:428-437 | the score is set and the high score becomes their maximum |
| Games.Game.CompleteLevel | assets/js/game.js:846-881 | level complete for 2000 ms with a bonus of 1000 times the level |
| Games.Game.EndGame | assets/js/game.js:884-888 | game over for 2000 ms |
| Games.Game.UpdateGameOver | assets/js/game.js:891-899 | the game-over timer counts down while positive |
| Games.Game.UpdateLevelComplete | assets/js/game.js:902-923 | the level-complete timer counts down while positive |
| Games.Game.CheckFruitSpawn | assets/js/game.js:926-937 | a fruit appears exactly when none is out or eaten and a third or two thirds of the dots are eaten |
| Games.Game.SpawnFruit | assets/js/game.js:940-972 | the level's fruit at (13.5, 17), radius 0.6, for the level's time |
| Games.Game.UpdateFruit | assets/js/game.js:985-1035 | the fruit fields advance by `FruitTick`: a touched fruit is eaten and scores the level's fruit points; otherwise its timer runs down and it vanishes at zero; the fruit stays the level's own and uneaten while out |
| Games.Game.HandlePlayerDeath | assets/js/game.js:814-823 | lives copied from the player; game over exactly when none are left |
| Games.Game.Respawn | assets/js/game.js:825-842 | player back home; every ghost `AtReset` (start, facing up, scatter for 7000 ms, fresh stuck detector, house wait for all but Blinky); fruit cleared, 500 ms ready timer, lives and score kept |
| Games.Game.ActivateGhostFrightenedMode | assets/js/game.js:797-811 | counter cleared; every ghost not eaten is frightened, turned round, at half speed, with the level's reduced timer; an eaten one keeps its mode and direction; no ghost moves or changes its eaten flag |
| Games.Game.FrightenGhost | assets/js/game.js:801-808 | one ghost frightened, turned round and slowed with the level's reduced timer, or left in its mode and direction when eaten; it does not move |
| Games.Game.ReduceFrightenedTimer | assets/js/game.js:805-808 | above the first level a ghost's timer becomes its duration reduced once more, at least 2000 ms (`ActivationTimer`) |
| Games.Game.ResetGhosts | assets/js/game.js:572-586 | every ghost `AtReset` (start, facing up, scatter for 7000 ms, fresh stuck detector, house wait for all but Blinky, whose wait fields are kept), and scaled when asked |
| Games.Game.ResetGhost | assets/js/game.js:573-585 | one ghost `AtReset`, as `Ghosts.Ghost.Reset` states, and scaled when asked |
| Games.Game.NextLevel | assets/js/game.js:539-617 | level up, score kept, map at the new level, player placed, ghosts `AtReset` and scaled, fruit cleared |
| Games.Game.ReloadMap | assets/js/game.js:547 | the map holds the new level's layout |
| Games.Game.PlaceForLevel | assets/js/game.js:565-592 | player placed, ghosts `AtReset` and scaled for the level, fruit cleared |
| Games.Game.PlacePlayer | assets/js/game.js:565-569 | the player at its start at the level speed |
| Games.Game.ResumeAfterLevel | assets/js/game.js:608-616 | playing with a 1500 ms ready timer |
| Games.Game.ResetGame | assets/js/game.js:524-536 | level 1, score 0, 3 lives, staged in state start, high score kept |
| Games.Game.ApplyKeys | assets/js/game.js:713-717 | the held arrows steer in up, down, left, right order |
| Games.Game.SteerKey | assets/js/game.js:714-717 | a held arrow calls setDirection |
| Games.Game.SteerAndMove | assets/js/game.js:713-721 | the held arrows steer (`SteerAll`), then a live player's power ticks and it moves to `Moved` at its speed; a dead one stays; lives and score kept (`Steered`) |
| Games.Game.UpdateStart | assets/js/game.js:675-704 | on the start screen the arrows steer and the player updates as `Steered` |
| Games.Game.ReadyPhase | assets/js/game.js:709-733 | the ready timer counts down by dt while the arrows steer and the player updates as `Steered` |
| Games.Game.ScorePellet | assets/js/game.js:742-759 | score plus the pellet's points, plus 1000 times the level and level complete exactly when the map is cleared; a power pellet frightens every ghost; the fruit check follows otherwise; no ghost moves |
| Games.Game.CountPellet | assets/js/game.js:744-749 | the pellet's points are added and a power pellet restarts the chain and frightens every ghost; no ghost moves |
| Games.Game.ClearedOrFruit | assets/js/game.js:752-758 | level complete exactly when the map is cleared, otherwise the fruit check |
| Games.Game.PlayerPhase | assets/js/game.js:736-760 | a living player moves to `Moved` at its (power-adjusted) speed, its power ticks or restarts on a power pellet, and it eats `PelletAt` the map; the game score follows the pellet and the level bonus; a power pellet restarts the chain and frightens the ghosts; no ghost moves; the fruit spawns exactly when checkFruitSpawn's condition holds on a non-clearing pellet, and is otherwise untouched |
| Games.Game.MoveAndEat | assets/js/game.js:738-741 | a living player moves to `Moved` at its power-adjusted speed (`PlayerStepped`), its power ticks or restarts on a power pellet, and it eats `PelletAt` the map |
| Games.Game.GhostTurn | assets/js/game.js:764-779 | a ghost updates (its mode timers as `ModeTicked`); touching a powered player eats it for 200 * 2^count points, touching an unpowered one kills |
| Games.Game.Meet | assets/js/game.js:768-779 | the collision outcome of one ghost against the player |
| Games.Game.GhostPhase | assets/js/game.js:763-781 | all four ghosts: the score grows by the chain of doubled rewards and at most four ghosts are eaten |
| Games.Game.UpdatePlaying | assets/js/game.js:707-794 | while the ready timer runs it counts down, the arrows steer and the player updates, and nothing else changes (`ReadyFramed`); afterwards exactly what `PlayFrame` states (`PlayFramed`) |
| Games.Game.PlayFrame | assets/js/game.js:735-790 | a living player moves to `Moved`, its power ticks and the pellet under it is eaten; a clearing pellet ends the frame: level complete, score plus the pellet and 1000 times the level, ghosts in place and the fruit untouched; otherwise the fruit spawns when due and advances by `FruitTick`, the score grows by the pellet, the eaten-ghost chain (restarted by a power pellet) and the fruit's points, and it is game over exactly when the player is dead with no lives left |
| Games.Game.AfterPlayer | assets/js/game.js:763-790 | ghosts, then death handling, then the fruit: a live player's fruit advances by `FruitTick`, the score grows by the ghost chain and the fruit's points, and it is game over exactly when the player is dead with no lives left; the player's position, direction and power and the map are unchanged |
| Games.Game.KeyDown | assets/js/game.js:184-229 | both keydown listeners in order, the second being the R listener at game.js lines 314-318: arrows steer, P or Escape pauses, any key starts; an expired game over resets, an expired level complete advances; R always restarts |
| Games.Game.FirstKeyListener | assets/js/game.js:184-229 | the first listener's state transitions |
| Games.Game.EndScreenKey | assets/js/game.js:220-228 | a key on game over whose timer has run out resets the game to the start screen (score 0, level 1, 3 lives); on a finished level it moves to the next level's layout; otherwise the state and level stay |
| Games.Game.SteerOrPause | assets/js/game.js:193-213 | an arrow steers, P or Escape toggles pause, anything else does nothing |
| Games.Game.GameLoop | assets/js/game.js:632-672 | the delta is clamped to 60, the first frame always renders, a skipped frame changes no game state, and a rendered frame runs the current state's update as `ScreenUpdated` (in play during the "Ready!" timer, `ReadyFramed`) |
| Games.Game.Clock | assets/js/game.js:632-643 | the last timestamp is stored, the delta is `ClampDelta`'s, and the first frame always renders |
| Games.Game.UpdateScreen | assets/js/game.js:647-667 | the state dispatch (`ScreenUpdated`): paused changes nothing; game over and level complete count down; start steers and updates the player with nothing else changed; playing does what `UpdatePlaying` states |

## Left out

- Drawing, the canvas, DOM elements, CSS animations, touch controls, `updateUIState`, `renderGame`, `renderStartScreen`, `showFloatingScore`, and every `draw` method. They produce no state the logic reads.
- `SoundManager`, `toggleMute` and the sound calls are output only.
- `theme.js` (light and dark theme) is not part of this model.
- `localStorage`: the saved high score is a constructor parameter, and saving it is not modelled.
- Timers: `setTimeout` bodies are separate methods that the caller invokes: `Game.Respawn` after a death and `Game.ResumeAfterLevel` after a level. `handlePlayerDeath` queues a respawn on every playing frame in which the player is dead (about 60 in the second it waits), so the caller may run `Game.Respawn` once for each such frame; the queue itself is not modelled. The `setInterval` celebrations only spawn particles. `requestAnimationFrame` is one `Game.GameLoop` call per frame.
- `Math.random`, `Random.intBetween` and `Random.choose` are values passed in:
  - `GhostDice` holds the ghost's random values.
  - The 20 target rolls are cells already drawn in [1, 26] x [1, 29].
  - A choice is an index taken modulo the list length.
  - `Draw` holds a particle's random values.
- `Date.now()`: the house bobbing takes the sine value as the parameter `bob`.
- `Math.sqrt` is any function returning the non-negative square root, and `Math.cos`/`Math.sin` of a particle angle are given values. Numbers are exact reals, not IEEE doubles, so rounding effects are not modelled.
- Particle effects owned by `Player` and `Game` (eating, death, fruit, celebrations) are not modelled. They never influence game state; `ParticleSystem` itself is modelled.
- `window.game.eatenGhostsCount` as read by the player is the `eatenGhostCount` parameter of `Player.CollideWithGhost`.
- The map is fixed at 28 by 31 cells with 16-pixel cells. Layouts of other sizes are not considered.
- `getPersonality`, `getFruitColor`, `getFps` and the ghost `color` only feed drawing.
- `updateLives` and `updateLevel` only copy a value and refresh the display. Their assignments are inlined.
- Games.Game.PlayFrame: on a frame that does not clear the map, each ghost's final position is given by `Ghosts.Ghost.Update`'s contract and is not restated here.
- Games.Game.GameLoop: for a rendered frame in play after the "Ready!" timer the contract does not restate `PlayFramed`; `Games.Game.UpdateScreen` and `Games.Game.UpdatePlaying` state it for the state after the clock, whose only changes are the last timestamp and the limiter, which no update reads.
- Games.Game.constructor: the constructor ends with `this.gameLoop(0)` (game.js line 70). That first frame is the caller's first `Game.GameLoop(0.0, …)` call, which always renders and runs the start screen's update.
- GhostTurn: states only the ghost's mode timers (`ModeTicked`) from `Ghost.Update`; its new position, direction, target and path are those `Ghosts.Ghost.Update` states, and are not restated here because the collision then changes the ghost's eaten, frightened and speed fields.
- GhostPhase: states the score, the chain and the player's life, not each ghost's `Ghosts.Ghost.Update` result.
- Ghosts.Ghost.ManageTimers: while a ghost stays frightened the blink timer's count is not stated, only whether it blinks.

Some behaviours follow the code as written, not what the comments suggest:

- An eaten ghost that was frightened keeps mode `Frightened`, because `getEaten` does not restore the previous mode.
- Ghosts built by `initialize` are not waiting in the house, because the constructor does not call `reset`. So the `ghost.y += 0.1` adjustment there never applies.
- The level-5 wall list only names cells that are already walls, so levels 5 and up play on the level-3 maze. `Layout.ExtraWallsHaveNoEffect` proves this.
- The frightened timer at levels above 1 applies the level reduction twice: once to `frightenedDuration` and again in `activateGhostFrightenedMode`. `Games.SecondLevelFrightenedTime` proves this.
- `Player.reset` sets the speed to 1.2 times the base speed even without power mode, and `nextLevel` then overrides it with the level speed.
